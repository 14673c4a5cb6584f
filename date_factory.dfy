/** `create_date`: turning an int, a calendar date, a date string or a tenor
    expression such as "3M+1B" into a serial date. */
module DateFactory {
  import opened Outcome
  import opened Civil
  import opened ExcelDate
  import opened Tenors
  import opened Stepping

  const SEPARATOR := '+'
  /** The token a tenor expression skips. */
  const SENTINEL := "E"

  // ---------------------------------------------------------------------------
  // Splitting on a separator

  /** The pieces of a split put back together with the separator between them. */
  function Join(parts: seq<string>, sep: char): string
    requires |parts| >= 1
  {
    if |parts| == 1 then parts[0] else parts[0] + [sep] + Join(parts[1..], sep)
  }

  /** Python's `s.split(sep)`: the maximal separator-free pieces, including the
      empty ones before, between and after separators. */
  function Split(s: string, sep: char): (parts: seq<string>)
    ensures |parts| >= 1
    ensures forall i :: 0 <= i < |parts| ==> sep !in parts[i]
    ensures Join(parts, sep) == s
    decreases |s|
  {
    if |s| == 0 then [""]
    else
      var rest := Split(s[1..], sep);
      if s[0] == sep then
        assert [""] + rest == [""] + rest[..];
        [""] + rest
      else
        var parts := [[s[0]] + rest[0]] + rest[1..];
        assert parts[1..] == rest[1..];
        parts
  }

  /** A separator-free string is split into itself alone. */
  lemma {:induction false} SplitNoSeparator(a: string, sep: char)
    requires sep !in a
    ensures Split(a, sep) == [a]
    decreases |a|
  {
    if |a| > 0 {
      assert sep !in a[1..];
      SplitNoSeparator(a[1..], sep);
      assert [a[0]] + a[1..] == a;
    }
  }

  /** Splitting `a + sep + b`, with no separator in a, gives a followed by the
      pieces of b. */
  lemma {:induction false} SplitAfterPiece(a: string, sep: char, b: string)
    requires sep !in a
    ensures Split(a + [sep] + b, sep) == [a] + Split(b, sep)
    decreases |a|
  {
    var s := a + [sep] + b;
    if |a| == 0 {
      assert s[1..] == b;
    } else {
      assert s[1..] == a[1..] + [sep] + b;
      assert sep !in a[1..];
      SplitAfterPiece(a[1..], sep, b);
      assert [a[0]] + a[1..] == a;
    }
  }

  /** Splitting undoes joining separator-free pieces. */
  lemma {:induction false} SplitJoin(parts: seq<string>, sep: char)
    requires |parts| >= 1
    requires forall i :: 0 <= i < |parts| ==> sep !in parts[i]
    ensures Split(Join(parts, sep), sep) == parts
    decreases |parts|
  {
    if |parts| == 1 {
      SplitNoSeparator(parts[0], sep);
    } else {
      assert sep !in parts[0];
      SplitJoin(parts[1..], sep);
      SplitAfterPiece(parts[0], sep, Join(parts[1..], sep));
      assert [parts[0]] + parts[1..] == parts;
    }
  }

  // ---------------------------------------------------------------------------
  // Folding the steps of a tenor expression

  /** One token of a tenor expression: "E" leaves the date alone, anything else
      is parsed as a tenor and stepped by. */
  function StepToken(date: int, token: string): (r: Result<int>)
    ensures token == SENTINEL ==> r == Ok(date)
    ensures token != SENTINEL && r.Ok? ==>
      InRange(date) && InRange(r.value) && |token| > 0 && token[|token| - 1..] in STEP_UNITS
  {
    if token == SENTINEL then Ok(date)
    else match ParseTenor(token)
      case Err(e) => Err(e)
      case Ok(t) => DateStep(date, t, false)
  }

  /** The tokens stepped by in order from the reference date; the first
      failure ends the fold. */
  function ApplyTokens(reference: int, tokens: seq<string>): (r: Result<int>)
    ensures r.Ok? ==> r.value == reference || InRange(r.value)
    decreases |tokens|
  {
    if |tokens| == 0 then Ok(reference)
    else match ApplyTokens(reference, tokens[..|tokens| - 1])
      case Err(e) => Err(e)
      case Ok(d) => StepToken(d, tokens[|tokens| - 1])
  }

  /** Folding a + b is folding a, then folding b from where a ended; a failure
      in a is the result. */
  lemma {:induction false} ApplyTokensAppend(reference: int, a: seq<string>, b: seq<string>)
    ensures ApplyTokens(reference, a + b)
            == match ApplyTokens(reference, a)
               case Err(e) => Err(e)
               case Ok(d) => ApplyTokens(d, b)
    decreases |b|
  {
    if |b| == 0 {
      assert a + b == a;
    } else {
      var init := b[..|b| - 1];
      assert (a + b)[..|a + b| - 1] == a + init;
      assert (a + b)[|a + b| - 1] == b[|b| - 1];
      ApplyTokensAppend(reference, a, init);
    }
  }

  /** A fold that fails on a prefix fails with the same error. */
  lemma FailureEndsFold(reference: int, tokens: seq<string>, k: nat)
    requires k <= |tokens| && ApplyTokens(reference, tokens[..k]).Err?
    ensures ApplyTokens(reference, tokens) == ApplyTokens(reference, tokens[..k])
  {
    ApplyTokensAppend(reference, tokens[..k], tokens[k..]);
    assert tokens[..k] + tokens[k..] == tokens;
  }

  /** The tokens other than the sentinel, in order. */
  function WithoutSentinels(tokens: seq<string>): (r: seq<string>)
    ensures SENTINEL !in r
    decreases |tokens|
  {
    if |tokens| == 0 then []
    else
      var init := WithoutSentinels(tokens[..|tokens| - 1]);
      if tokens[|tokens| - 1] == SENTINEL then init else init + [tokens[|tokens| - 1]]
  }

  /** Skipping "E" tokens: the fold over the expression is the fold over its
      other tokens. */
  lemma {:induction false} ApplyTokensSkipsSentinels(reference: int, tokens: seq<string>)
    ensures ApplyTokens(reference, tokens) == ApplyTokens(reference, WithoutSentinels(tokens))
    decreases |tokens|
  {
    if |tokens| > 0 {
      var init := tokens[..|tokens| - 1];
      ApplyTokensSkipsSentinels(reference, init);
      var rest := WithoutSentinels(init);
      if tokens[|tokens| - 1] != SENTINEL {
        assert (rest + [tokens[|tokens| - 1]])[..|rest|] == rest;
      }
    }
  }

  /** An expression made only of sentinels resolves to the reference date. */
  lemma OnlySentinels(reference: int, tokens: seq<string>)
    requires forall i :: 0 <= i < |tokens| ==> tokens[i] == SENTINEL
    ensures ApplyTokens(reference, tokens) == Ok(reference)
  {
    ApplyTokensSkipsSentinels(reference, tokens);
    SentinelsVanish(tokens);
  }

  lemma {:induction false} SentinelsVanish(tokens: seq<string>)
    requires forall i :: 0 <= i < |tokens| ==> tokens[i] == SENTINEL
    ensures WithoutSentinels(tokens) == []
    decreases |tokens|
  {
    if |tokens| > 0 {
      SentinelsVanish(tokens[..|tokens| - 1]);
    }
  }

  // ---------------------------------------------------------------------------
  // create_date

  /** The argument kinds `create_date` dispatches on. */
  datatype DateArg =
    | SerialArg(serial: int)
    | CalendarArg(date: CivilDate)
    | TextArg(text: string)
    | TenorArg(tenor: Tenor)

  /** `arg[0:4].isdigit()`: the string is not empty and its first four
      characters (or all of it, when shorter) are digits. */
  predicate LooksAbsolute(s: string): (absolute: bool)
    ensures absolute ==> |s| > 0 && IsDigit(s[0])
    ensures |s| >= 4 ==> (absolute <==> forall i :: 0 <= i < 4 ==> IsDigit(s[i]))
    ensures |s| < 4 ==> (absolute <==> |s| > 0 && AllDigits(s))
  {
    assert s[..|s|] == s;
    var head := s[..if |s| < 4 then |s| else 4];
    |head| > 0 && AllDigits(head)
  }

  function Rank(arg: DateArg): nat {
    if arg.TenorArg? then 1 else 0
  }

  /** What `create_date(arg, reference_date)` returns. An absolute date string
      goes to the date parser `parseAbsolute` (None when it cannot parse).
      A `Tenor` argument is handed back as `create_date(reference_date, arg)`,
      which returns the integer reference date itself. */
  function ResolveDate(arg: DateArg, reference: Option<int>, parseAbsolute: string -> Option<CivilDate>): (r: Result<int>)
    ensures arg.SerialArg? ==> r == Ok(arg.serial)
    ensures arg.CalendarArg? ==> r.Ok? && InRange(r.value) && FromExcelDate(r.value) == arg.date
    ensures (arg.TenorArg? || (arg.TextArg? && !LooksAbsolute(arg.text))) && reference.None?
            ==> r == Err(MissingReference)
    ensures arg.TextArg? && LooksAbsolute(arg.text) && parseAbsolute(arg.text).None?
            ==> r == Err(ParseError(arg.text))
    decreases Rank(arg)
  {
    match arg
    case SerialArg(n) => Ok(n)
    case CalendarArg(d) =>
      FromToExcelDate(d);
      Ok(ToExcelDate(d))
    case TextArg(s) =>
      if LooksAbsolute(s) then
        match parseAbsolute(s)
        case None => Err(ParseError(s))
        case Some(d) => Ok(ToExcelDate(d))
      else if reference.None? then Err(MissingReference)
      else ApplyTokens(reference.value, Split(s, SEPARATOR))
    case TenorArg(_) =>
      if reference.None? then Err(MissingReference)
      else ResolveDate(SerialArg(reference.value), None, parseAbsolute)
  }

  /** The loop of `create_date` over the tokens of an expression: skip "E",
      step by every other token, and stop at the first failure. */
  method StepTokens(reference: int, tokens: seq<string>) returns (r: Result<int>)
    ensures r == ApplyTokens(reference, tokens)
  {
    var ret := reference;
    for i := 0 to |tokens|
      invariant ApplyTokens(reference, tokens[..i]) == Ok(ret)
    {
      assert tokens[..i + 1][..i] == tokens[..i];
      var t := tokens[i];
      if t == SENTINEL {
        continue;
      }
      var tenor := ParseTenor(t);
      if tenor.Err? {
        FailureEndsFold(reference, tokens, i + 1);
        return Err(tenor.error);
      }
      var next := DateStep(ret, tenor.value, false);
      if next.Err? {
        FailureEndsFold(reference, tokens, i + 1);
        return Err(next.error);
      }
      ret := next.value;
    }
    assert tokens[..|tokens|] == tokens;
    return Ok(ret);
  }

  /** `create_date(arg, reference_date)`: dispatch on the kind of argument;
      a tenor expression is split at "+" and its tokens stepped by in order. */
  method CreateDate(arg: DateArg, reference: Option<int>, parseAbsolute: string -> Option<CivilDate>)
    returns (r: Result<int>)
    ensures r == ResolveDate(arg, reference, parseAbsolute)
    decreases Rank(arg)
  {
    match arg
    case SerialArg(n) =>
      return Ok(n);
    case CalendarArg(d) =>
      return Ok(ToExcelDate(d));
    case TextArg(s) =>
      if LooksAbsolute(s) {
        var parsed := parseAbsolute(s);
        if parsed.None? {
          return Err(ParseError(s));
        }
        return Ok(ToExcelDate(parsed.value));
      }
      if reference.None? {
        return Err(MissingReference);
      }
      r := StepTokens(reference.value, Split(s, SEPARATOR));
    case TenorArg(_) =>
      if reference.None? {
        return Err(MissingReference);
      }
      r := CreateDate(SerialArg(reference.value), None, parseAbsolute);
  }

  // ---------------------------------------------------------------------------
  // Properties of create_date

  /** A tenor expression is the fold of its "+"-separated tokens from the
      reference date. */
  lemma ResolveExpression(reference: int, parts: seq<string>, parseAbsolute: string -> Option<CivilDate>)
    requires |parts| >= 1
    requires forall i :: 0 <= i < |parts| ==> SEPARATOR !in parts[i]
    requires !LooksAbsolute(Join(parts, SEPARATOR))
    ensures ResolveDate(TextArg(Join(parts, SEPARATOR)), Some(reference), parseAbsolute)
            == ApplyTokens(reference, WithoutSentinels(parts))
  {
    SplitJoin(parts, SEPARATOR);
    ApplyTokensSkipsSentinels(reference, parts);
  }

  /** `create_date("E", r) == r`. */
  lemma ResolveSentinel(reference: int, parseAbsolute: string -> Option<CivilDate>)
    ensures ResolveDate(TextArg(SENTINEL), Some(reference), parseAbsolute) == Ok(reference)
  {
    SplitNoSeparator(SENTINEL, SEPARATOR);
    OnlySentinels(reference, [SENTINEL]);
  }

  /** "a+b" resolves as a from the reference, then b from the result. */
  lemma ResolveSum(reference: int, a: string, b: string, parseAbsolute: string -> Option<CivilDate>)
    requires SEPARATOR !in a && SEPARATOR !in b
    requires !LooksAbsolute(a + [SEPARATOR] + b)
    ensures ResolveDate(TextArg(a + [SEPARATOR] + b), Some(reference), parseAbsolute)
            == match StepToken(reference, a)
               case Err(e) => Err(e)
               case Ok(d) => StepToken(d, b)
  {
    SplitNoSeparator(b, SEPARATOR);
    SplitAfterPiece(a, SEPARATOR, b);
    assert Split(a + [SEPARATOR] + b, SEPARATOR) == [a, b];
    assert [a, b][..1] == [a];
    assert [a][..0] == [];
    assert ApplyTokens(reference, [a]) == StepToken(reference, a);
  }

  /** A tenor with an unsigned magnitude of four or more digits starts like a year,
      so it goes to the date parser instead of being stepped by: "1000B" does
      not resolve to a thousand days after the reference date. */
  lemma LongTenorGoesToParser(reference: Option<int>, parseAbsolute: string -> Option<CivilDate>)
    ensures ResolveDate(TextArg("1000B"), reference, parseAbsolute)
            == match parseAbsolute("1000B")
               case None => Err(ParseError("1000B"))
               case Some(d) => Ok(ToExcelDate(d))
  {
    assert LooksAbsolute("1000B");
  }

  /** As written, a `Tenor` argument resolves to the reference date whatever
      the tenor is. */
  lemma ResolveTenorAsWritten(t: Tenor, reference: int, parseAbsolute: string -> Option<CivilDate>)
    ensures ResolveDate(TenorArg(t), Some(reference), parseAbsolute) == Ok(reference)
  {
  }

  /** The evidently intended `Tenor` branch (the unreachable lines after the
      early return): the sentinel gives the reference date, any other tenor
      steps the reference date by it. */
  function ResolveTenor(t: Tenor, reference: int): Result<int> {
    if t.unit == SENTINEL then Ok(reference) else DateStep(reference, t, false)
  }

  /** The intended branch agrees with resolving the tenor's own text as an
      expression, `create_date(Tenor(s), r) == create_date(s, r)`, when the
      text holds no "+", does not start with four digits, and has the unit
      "E" only if it is "E" itself. Outside these conditions the two differ
      (see SentinelUnitDiffers). */
  lemma ResolveTenorAsText(s: string, reference: int, parseAbsolute: string -> Option<CivilDate>)
    requires ParseTenor(s).Ok?
    requires SEPARATOR !in s && !LooksAbsolute(s)
    requires ParseTenor(s).value.unit == SENTINEL ==> s == SENTINEL
    ensures ResolveTenor(ParseTenor(s).value, reference)
            == ResolveDate(TextArg(s), Some(reference), parseAbsolute)
  {
    SplitNoSeparator(s, SEPARATOR);
    assert [s][..0] == [];
    assert ApplyTokens(reference, [s]) == StepToken(reference, s);
    if s == SENTINEL {
      ResolveSentinel(reference, parseAbsolute);
    } else {
      assert ParseTenor(s).value.unit != SENTINEL;
    }
  }

  /** "0E" has the sentinel unit, so the intended branch gives the reference
      date; as text it is a token other than "E" and `date_step` rejects its
      unit. */
  lemma SentinelUnitDiffers(reference: int, parseAbsolute: string -> Option<CivilDate>)
    ensures ResolveTenor(Tenor("0E", 0, "E"), reference) == Ok(reference)
    ensures ResolveDate(TextArg("0E"), Some(reference), parseAbsolute) == Err(SentinelStep)
  {
    var s := "0E";
    assert !LooksAbsolute(s);
    SplitNoSeparator(s, SEPARATOR);
    assert [s][..0] == [];
    ParseTenorOfParts(0, 'E');
    assert ShowInt(0) + ['E'] == s;
    assert ApplyTokens(reference, [s]) == StepToken(reference, s);
  }

  /** The discrepancy: a one-day tenor resolves to the reference date as
      written and to the next day as intended. */
  lemma TenorArgumentIgnored(reference: int, parseAbsolute: string -> Option<CivilDate>)
    requires InRange(reference) && InRange(reference + 1)
    ensures ResolveDate(TenorArg(Tenor("1B", 1, "B")), Some(reference), parseAbsolute) == Ok(reference)
    ensures ResolveTenor(Tenor("1B", 1, "B"), reference) == Ok(reference + 1)
  {
    StepByDays(reference, Tenor("1B", 1, "B"));
  }
}
