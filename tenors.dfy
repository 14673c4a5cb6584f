/** `Tenor` (yc_date.py): a magnitude and a one-character unit split off a
    string such as "3M", "-1B" or "E". A Tenor is never changed after it is
    built, so it is a value here; building one can fail, so `ParseTenor`
    returns a `Result`. */
module Tenors {
  import opened Outcome

  /** text is what `str(t)` returns; n the magnitude; unit the last character
      of text, or "" when text is empty. */
  datatype Tenor = Tenor(text: string, n: int, unit: string)

  predicate IsDigit(c: char) {
    '0' <= c <= '9'
  }

  predicate AllDigits(s: string) {
    forall i :: 0 <= i < |s| ==> IsDigit(s[i])
  }

  /** The value of a string of decimal digits. */
  function DigitsValue(s: string): nat
    requires AllDigits(s)
  {
    if s == [] then 0
    else 10 * DigitsValue(s[..|s| - 1]) + (s[|s| - 1] as int - '0' as int)
  }

  /** The length of the optional leading sign of s: 1 for "+" or "-", else 0. */
  function SignLength(s: string): nat {
    if |s| > 0 && (s[0] == '-' || s[0] == '+') then 1 else 0
  }

  /** Python's `int(s)` on an optional sign followed by at least one digit:
      it succeeds exactly on that syntax, and its value is the digits' value,
      negated after a "-". */
  function ParseInt(s: string): (r: Option<int>)
    ensures r.Some? <==> SignLength(s) < |s| && AllDigits(s[SignLength(s)..])
    ensures r.Some? ==> r.value == if s[0] == '-' then -(DigitsValue(s[1..]) as int) else DigitsValue(s[SignLength(s)..])
  {
    if |s| > 0 && (s[0] == '-' || s[0] == '+') then
      var digits := s[1..];
      if |digits| > 0 && AllDigits(digits) then
        var v: int := DigitsValue(digits);
        Some(if s[0] == '-' then -v else v)
      else None
    else if |s| > 0 && AllDigits(s) then Some(DigitsValue(s))
    else None
  }

  function DigitChar(d: nat): (c: char)
    requires d < 10
    ensures IsDigit(c) && c as int - '0' as int == d
  {
    (d + '0' as int) as char
  }

  /** Python's `str(n)` for a natural number. */
  function ShowNat(n: nat): (s: string)
    ensures |s| > 0 && AllDigits(s)
    ensures DigitsValue(s) == n
    ensures n > 0 ==> s[0] != '0'
  {
    if n < 10 then [DigitChar(n)]
    else
      var s := ShowNat(n / 10) + [DigitChar(n % 10)];
      assert s[..|s| - 1] == ShowNat(n / 10);
      s
  }

  /** Python's `str(n)`. */
  function ShowInt(n: int): string {
    if n < 0 then "-" + ShowNat(-n) else ShowNat(n)
  }

  /** Printing an integer and reading it back gives the integer. */
  lemma ParseShowInt(n: int)
    ensures ParseInt(ShowInt(n)) == Some(n)
  {
    if n < 0 {
      assert ShowInt(n)[1..] == ShowNat(-n);
    }
  }

  /** `Tenor(s)`: the unit is the last character and the magnitude is
      `int(s[:-1])`, or 0 when that prefix is empty; parsing fails only when a
      non-empty prefix is not an integer. */
  function ParseTenor(s: string): (r: Result<Tenor>)
    ensures r.Ok? ==> r.value.text == s
    ensures r.Ok? ==> r.value.unit == s[if |s| == 0 then 0 else |s| - 1..]
    ensures r.Ok? <==> |s| <= 1 || ParseInt(s[..|s| - 1]).Some?
    ensures r.Ok? ==> r.value.n == if |s| <= 1 then 0 else ParseInt(s[..|s| - 1]).value
    ensures r.Err? ==> r.error == ParseError(s)
  {
    if |s| <= 1 then Ok(Tenor(s, 0, s))
    else
      var prefix := s[..|s| - 1];
      match ParseInt(prefix)
      case None => Err(ParseError(s))
      case Some(n) => Ok(Tenor(s, n, s[|s| - 1..]))
  }

  /** Any integer followed by any unit character is a tenor with that
      magnitude and that unit, and it prints back as the same string. */
  lemma ParseTenorOfParts(n: int, u: char)
    ensures ParseTenor(ShowInt(n) + [u]) == Ok(Tenor(ShowInt(n) + [u], n, [u]))
  {
    var s := ShowInt(n) + [u];
    assert s[..|s| - 1] == ShowInt(n);
    ParseShowInt(n);
  }

  /** The sentinel "E" has magnitude 0 and unit "E". */
  lemma ParseSentinel()
    ensures ParseTenor("E") == Ok(Tenor("E", 0, "E"))
  {
  }

  /** `Tenor.__eq__`: two tenors are equal when their strings are. */
  predicate SameTenor(a: Tenor, b: Tenor): (same: bool)
    ensures a == b ==> same
  {
    a.text == b.text
  }

  /** For parsed tenors, comparing strings is comparing magnitude and unit too. */
  lemma SameTenorIsEquality(s1: string, s2: string)
    requires ParseTenor(s1).Ok? && ParseTenor(s2).Ok?
    ensures SameTenor(ParseTenor(s1).value, ParseTenor(s2).value) <==> ParseTenor(s1) == ParseTenor(s2)
  {
  }
}
