/** `generate_schedule(start, end, step)`: the dates from start, one step
    apart, that fall before end, followed by end itself. A final period
    shorter than a step is left at the back (a short back stub). */
module Schedules {
  import opened Outcome
  import opened Tenors
  import opened Stepping

  /** A step function that only ever moves forward. */
  ghost predicate Forward(next: int -> Result<int>) {
    forall d :: next(d).Ok? ==> next(d).value > d
  }

  /** Put x in front of a successful schedule. */
  function Prepend(x: int, r: Result<seq<int>>): Result<seq<int>> {
    match r
    case Err(e) => Err(e)
    case Ok(s) => Ok([x] + s)
  }

  /** Put the dates of out in front of a successful schedule. */
  function PrependAll(out: seq<int>, r: Result<seq<int>>): Result<seq<int>> {
    match r
    case Err(e) => Err(e)
    case Ok(s) => Ok(out + s)
  }

  /** The walk from start towards end by the step function next: every date
      before end, then end; a step that fails fails the walk. */
  function Walk(start: int, end: int, next: int -> Result<int>): (r: Result<seq<int>>)
    requires Forward(next)
    ensures r.Ok? ==> |r.value| >= 1 && r.value[|r.value| - 1] == end
    ensures r.Err? ==> start < end
    decreases end - start
  {
    if start >= end then Ok([end])
    else match next(start)
      case Err(e) => Err(e)
      case Ok(d) => Prepend(start, Walk(d, end, next))
  }

  /** `date_step(d, step)` as a step function. */
  function StepBy(step: Tenor): int -> Result<int> {
    d => DateStep(d, step, false)
  }

  /** A tenor of positive magnitude only moves forward. */
  lemma StepByForward(step: Tenor)
    requires step.n > 0
    ensures Forward(StepBy(step))
  {
    forall d | StepBy(step)(d).Ok?
      ensures StepBy(step)(d).value > d
    {
      StepDirection(d, step);
    }
  }

  /** The schedule `generate_schedule` builds; the step must move forward, or
      the walk would never end. */
  function Schedule(start: int, end: int, step: Tenor): (r: Result<seq<int>>)
    requires step.n > 0
    ensures r.Ok? ==> |r.value| >= 1 && r.value[|r.value| - 1] == end
    ensures r.Ok? ==> StrictlyIncreasing(r.value)
  {
    StepByForward(step);
    var w := Walk(start, end, StepBy(step));
    if w.Ok? then WalkIncreasing(start, end, StepBy(step)); w else w
  }

  predicate StrictlyIncreasing(s: seq<int>) {
    forall i, j :: 0 <= i < j < |s| ==> s[i] < s[j]
  }

  /** `generate_schedule`: append the running date while it is before end,
      then append end. */
  method GenerateSchedule(start: int, end: int, step: Tenor) returns (r: Result<seq<int>>)
    requires step.n > 0
    ensures r == Schedule(start, end, step)
  {
    StepByForward(step);
    ghost var f := StepBy(step);
    var d := start;
    var out: seq<int> := [];
    PrependNothing(Walk(d, end, f));
    while d < end
      invariant Walk(start, end, f) == PrependAll(out, Walk(d, end, f))
      decreases end - d
    {
      var next := DateStep(d, step, false);
      assert next == f(d);
      WalkStep(out, d, end, f);
      if next.Err? {
        return Err(next.error);
      }
      out := out + [d];
      d := next.value;
    }
    WalkDone(out, d, end, f);
    out := out + [end];
    return Ok(out);
  }

  lemma PrependNothing(r: Result<seq<int>>)
    ensures PrependAll([], r) == r
  {
    if r.Ok? {
      assert [] + r.value == r.value;
    }
  }

  /** One turn of the loop: a failing step fails the walk, a successful one
      moves d to the end of the dates collected so far. */
  lemma WalkStep(out: seq<int>, d: int, end: int, next: int -> Result<int>)
    requires Forward(next) && d < end
    ensures next(d).Err? ==> PrependAll(out, Walk(d, end, next)) == Err(next(d).error)
    ensures next(d).Ok? ==>
      PrependAll(out, Walk(d, end, next)) == PrependAll(out + [d], Walk(next(d).value, end, next))
  {
    if next(d).Ok? {
      var r := Walk(next(d).value, end, next);
      if r.Ok? {
        assert out + ([d] + r.value) == (out + [d]) + r.value;
      }
    }
  }

  /** Leaving the loop: end closes the schedule. */
  lemma WalkDone(out: seq<int>, d: int, end: int, next: int -> Result<int>)
    requires Forward(next) && d >= end
    ensures PrependAll(out, Walk(d, end, next)) == Ok(out + [end])
  {
  }

  // ---------------------------------------------------------------------------
  // Shape of a walk

  /** A walk is never empty and ends at end; it starts at start when start is
      before end, and is [end] alone otherwise. */
  lemma {:induction false} WalkEnds(start: int, end: int, next: int -> Result<int>)
    requires Forward(next) && Walk(start, end, next).Ok?
    ensures var s := Walk(start, end, next).value;
      |s| >= 1 && s[|s| - 1] == end
      && (start < end ==> |s| >= 2 && s[0] == start)
      && (start >= end ==> s == [end])
    decreases end - start
  {
    if start < end {
      WalkEnds(next(start).value, end, next);
    }
  }

  /** Every date but the last is in [start, end). */
  lemma {:induction false} WalkWithinRange(start: int, end: int, next: int -> Result<int>)
    requires Forward(next) && Walk(start, end, next).Ok?
    ensures var s := Walk(start, end, next).value;
      forall i :: 0 <= i < |s| - 1 ==> start <= s[i] < end
    decreases end - start
  {
    if start < end {
      WalkWithinRange(next(start).value, end, next);
    }
  }

  /** Every date after the first but the last is a step of its predecessor,
      and the step of the last date before end lands on or after end: the
      final period is at most one step long. */
  lemma {:induction false} WalkSteps(start: int, end: int, next: int -> Result<int>)
    requires Forward(next) && Walk(start, end, next).Ok?
    ensures var s := Walk(start, end, next).value;
      (forall i :: 0 <= i < |s| - 2 ==> next(s[i]) == Ok(s[i + 1]))
      && (|s| >= 2 ==> next(s[|s| - 2]).Ok? && next(s[|s| - 2]).value >= end)
    decreases end - start
  {
    if start < end {
      var d := next(start).value;
      WalkSteps(d, end, next);
      WalkEnds(d, end, next);
    }
  }

  /** A walk is strictly increasing. */
  lemma {:induction false} WalkIncreasing(start: int, end: int, next: int -> Result<int>)
    requires Forward(next) && Walk(start, end, next).Ok?
    ensures StrictlyIncreasing(Walk(start, end, next).value)
    decreases end - start
  {
    if start < end {
      var d := next(start).value;
      WalkIncreasing(d, end, next);
      WalkEnds(d, end, next);
      WalkWithinRange(d, end, next);
      var rest := Walk(d, end, next).value;
      assert forall k :: 0 <= k < |rest| ==> start < rest[k];
    }
  }

  /** The shape of a walk: it ends at end; when start is before end it
      starts at start, every other date lies in [start, end) and the dates
      strictly increase; otherwise it is [end]. */
  lemma WalkShape(start: int, end: int, next: int -> Result<int>)
    requires Forward(next) && Walk(start, end, next).Ok?
    ensures var s := Walk(start, end, next).value;
      |s| >= 1 && s[|s| - 1] == end
      && (start >= end ==> s == [end])
      && (start < end ==> s[0] == start)
      && (forall i :: 0 <= i < |s| - 1 ==> start <= s[i] < end)
      && StrictlyIncreasing(s)
  {
    WalkEnds(start, end, next);
    WalkWithinRange(start, end, next);
    WalkIncreasing(start, end, next);
  }

  /** Consecutive dates of a schedule, up to the last one before end, are
      one `date_step` apart. (That the step from the last one before end
      reaches end or beyond is WalkSteps, for every forward step function.) */
  lemma ScheduleSteps(start: int, end: int, step: Tenor)
    requires step.n > 0 && Schedule(start, end, step).Ok?
    ensures var s := Schedule(start, end, step).value;
      forall i :: 0 <= i < |s| - 2 ==> DateStep(s[i], step, false) == Ok(s[i + 1])
  {
    StepByForward(step);
    var f := StepBy(step);
    WalkSteps(start, end, f);
    var s := Walk(start, end, f).value;
    forall i | 0 <= i < |s| - 2
      ensures DateStep(s[i], step, false) == Ok(s[i + 1])
    {
      assert f(s[i]) == DateStep(s[i], step, false);
    }
  }
}
