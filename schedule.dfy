/**
 The per-group scheduler: one tick runs every member with a shared timestamp,
 then the group either stops (a member failed, the sample budget ran out, the
 tick overran the polling interval) or sleeps and runs the next tick.
 The clock is an input: each tick brings its start time in milliseconds and
 the time elapsed until its last member settled. Timers are not modelled;
 a tick that is rescheduled is simply the next element of the input.
 */
module Schedule {
  import opened JsValues
  import opened Metrics

  const TwoTo31: int := 0x8000_0000
  const TwoTo32: int := 0x1_0000_0000

  /** JavaScript's `x / 1000` truncated towards zero, for an integral `x`. */
  function TruncDiv1000(x: int): int {
    if x >= 0 then x / 1000 else -((-x) / 1000)
  }

  /** JavaScript's ToInt32: wrap an integer into the signed 32-bit range by
      adding or removing multiples of 2^32. */
  function ToInt32(x: int): (r: int)
    ensures -TwoTo31 <= r < TwoTo31
    ensures -TwoTo31 <= x < TwoTo31 ==> r == x
    decreases if x < 0 then -2 * x else 2 * x + 1
  {
    if x >= TwoTo31 then ToInt32(x - TwoTo32)
    else if x < -TwoTo31 then ToInt32(x + TwoTo32)
    else x
  }

  /** The wrap agrees with reduction modulo 2^32 into the signed range. */
  lemma {:induction false} ToInt32IsModular(x: int)
    ensures ToInt32(x) == (if x % TwoTo32 >= TwoTo31 then x % TwoTo32 - TwoTo32 else x % TwoTo32)
    decreases if x < 0 then -2 * x else 2 * x + 1
  {
    if x >= TwoTo31 {
      ToInt32IsModular(x - TwoTo32);
      assert (x - TwoTo32) % TwoTo32 == x % TwoTo32;
    } else if x < -TwoTo31 {
      ToInt32IsModular(x + TwoTo32);
      assert (x + TwoTo32) % TwoTo32 == x % TwoTo32;
    }
  }

  /** The timestamp handed to every member of a tick: `start / 1000 | 0`. */
  function TickTimestamp(startMs: int): int {
    ToInt32(TruncDiv1000(startMs))
  }

  /** Up to 2038-01-19 the timestamp is the tick start in whole seconds. */
  lemma TimestampIsSeconds(startMs: int)
    requires 0 <= startMs < TwoTo31 * 1000
    ensures TickTimestamp(startMs) * 1000 <= startMs < TickTimestamp(startMs) * 1000 + 1000
  {
    assert 0 <= startMs / 1000 < TwoTo31;
  }

  /** Within that range later starts never get earlier timestamps. */
  lemma TimestampMonotone(s1: int, s2: int)
    requires 0 <= s1 <= s2 < TwoTo31 * 1000
    ensures TickTimestamp(s1) <= TickTimestamp(s2)
  {
    TimestampIsSeconds(s1);
    TimestampIsSeconds(s2);
  }

  /** At 2^31 seconds the `| 0` truncation wraps to a negative time. */
  lemma TimestampWrapsIn2038()
    ensures TickTimestamp(TwoTo31 * 1000) == -TwoTo31
    ensures TickTimestamp(TwoTo31 * 1000 - 1) == TwoTo31 - 1
  {
  }

  // ---------------------------------------------------------------- budget

  /** What `parseInt(argv.samples, 10)` yields: an integer or NaN. */
  datatype IntParse = Int(n: int) | IntNaN

  /** The sample budget: `false` (no bound), a count, or NaN when the option
      does not parse as an integer. */
  datatype Budget = Unlimited | Remaining(n: int) | NotANumber

  /** `argv.samples === false ? false : parseInt(argv.samples, 10)`, with the
      absent option as None. */
  function ParseSamples(arg: Option<IntParse>): (b: Budget)
    ensures b.Unlimited? <==> arg.None?
    ensures b.Remaining? <==> arg.Some? && arg.value.Int?
    ensures b.Remaining? ==> arg == Some(Int(b.n))
  {
    match arg
    case None => Unlimited
    case Some(Int(n)) => Remaining(n)
    case Some(IntNaN) => NotANumber
  }

  /** `samples--`: NaN stays NaN, `false` is never decremented. */
  function Decrement(b: Budget): Budget {
    match b
    case Unlimited => Unlimited
    case Remaining(n) => Remaining(n - 1)
    case NotANumber => NotANumber
  }

  /** `samples <= 0`, which is false for NaN. */
  predicate Exhausted(b: Budget) {
    b.Remaining? && b.n <= 0
  }

  // ---------------------------------------------------------------- one step

  /** How a tick ended: the error the fan-in reported, if any, and the
      milliseconds from the tick's start to the end of the fan-in. */
  datatype TickSummary = TickSummary(error: Option<RunError>, elapsed: int)

  datatype Outcome = Done | Failed(error: RunError)

  /** After a tick the group either stops with an outcome or sleeps `delay`
      milliseconds and runs the next tick with the decremented budget. */
  datatype Step = Stop(outcome: Outcome) | Reschedule(budget: Budget, delay: int)

  /** The decision taken when a tick's fan-in completes. */
  function NextStep(err: Option<RunError>, budget: Budget, wait: int, elapsed: int): Step {
    if err.Some? then Stop(Failed(err.value))
    else
      var samples := Decrement(budget);
      if Exhausted(samples) then Stop(Done)
      else
        var delay := wait - elapsed;
        if delay < 0 then Stop(Failed(TooSlow))
        else Reschedule(samples, delay)
  }

  /** The order of the checks after a tick: a member's error stops the group
      first, without touching the budget; then a budget that reaches zero
      stops it successfully, however long the tick took; then an overrun fails
      it; only then is the next tick scheduled, with the decremented budget
      and a non-negative delay of `wait - elapsed`. */
  lemma NextStepPrecedence(err: Option<RunError>, budget: Budget, wait: int, elapsed: int)
    ensures err.Some? ==> NextStep(err, budget, wait, elapsed) == Stop(Failed(err.value))
    ensures err.None? && Exhausted(Decrement(budget)) ==> NextStep(err, budget, wait, elapsed) == Stop(Done)
    ensures err.None? && !Exhausted(Decrement(budget)) && wait - elapsed < 0 ==>
      NextStep(err, budget, wait, elapsed) == Stop(Failed(TooSlow)) &&
      Message(NextStep(err, budget, wait, elapsed).outcome.error) == "command is too slow."
    ensures NextStep(err, budget, wait, elapsed).Reschedule? <==>
      err.None? && !Exhausted(Decrement(budget)) && elapsed <= wait
    ensures NextStep(err, budget, wait, elapsed).Reschedule? ==>
      NextStep(err, budget, wait, elapsed) == Reschedule(Decrement(budget), wait - elapsed) && wait - elapsed >= 0
  {
  }

  // ---------------------------------------------------------------- a run of ticks

  /** Where a group stands after the ticks supplied so far: finished with an
      outcome, or waiting for its next tick with the budget shown. */
  datatype GroupStatus = Finished(outcome: Outcome) | Waiting(budget: Budget)

  datatype GroupRun = GroupRun(status: GroupStatus, ticks: nat)

  function Shifted(r: GroupRun, k: nat): GroupRun {
    GroupRun(r.status, r.ticks + k)
  }

  /** The group's state machine driven over the tick summaries from tick
      `from` on, one summary per tick actually run; `ticks` counts the ticks
      consumed. A group is run by `Drive(budget, wait, s, 0)`. */
  function Drive(budget: Budget, wait: int, s: seq<TickSummary>, from: nat): (r: GroupRun)
    requires from <= |s|
    ensures r.ticks <= |s| - from
    ensures from < |s| ==> r.ticks >= 1
    ensures r.status.Waiting? ==> r.ticks == |s| - from
    decreases |s| - from
  {
    if from == |s| then GroupRun(Waiting(budget), 0)
    else
      match NextStep(s[from].error, budget, wait, s[from].elapsed)
      case Stop(o) => GroupRun(Finished(o), 1)
      case Reschedule(b, _) => Shifted(Drive(b, wait, s, from + 1), 1)
  }

  /** Ticks `from` up to `to` neither failed nor overran the interval. */
  ghost predicate Clean(s: seq<TickSummary>, wait: int, from: nat, to: nat)
    requires from <= to <= |s|
  {
    forall j :: from <= j < to ==> s[j].error.None? && s[j].elapsed <= wait
  }

  /** The budget is still positive after `k` successful ticks. */
  predicate Survives(b: Budget, k: nat) {
    k == 0 || !b.Remaining? || b.n > k
  }

  /** The budget after `k` decrements. */
  function After(b: Budget, k: nat): Budget {
    if b.Remaining? then Remaining(b.n - k) else b
  }

  function Max(a: int, b: int): int {
    if a < b then b else a
  }

  /** Clean ticks within the budget only reschedule: the group gets past
      them with the same interval and a budget decremented once per tick. */
  lemma {:induction false} DriveSkip(b: Budget, wait: int, s: seq<TickSummary>, from: nat, k: nat)
    requires from + k <= |s| && Clean(s, wait, from, from + k) && Survives(b, k)
    ensures Drive(b, wait, s, from) == Shifted(Drive(After(b, k), wait, s, from + k), k)
    decreases k
  {
    if k > 0 {
      assert s[from].error.None? && s[from].elapsed <= wait;
      assert Clean(s, wait, from + 1, from + k);
      DriveSkip(Decrement(b), wait, s, from + 1, k - 1);
      assert After(Decrement(b), k - 1) == After(b, k);
    }
  }

  /** With a numeric budget `n`, a group whose ticks never fail stops with
      success after exactly max(n, 1) ticks; the last budgeted tick succeeds
      even when it overran the interval, since the budget is checked first. */
  lemma BudgetEndsGroup(n: int, wait: int, s: seq<TickSummary>)
    requires |s| >= Max(n, 1)
    requires forall j :: 0 <= j < Max(n, 1) ==> s[j].error.None?
    requires forall j :: 0 <= j < Max(n, 1) - 1 ==> s[j].elapsed <= wait
    ensures Drive(Remaining(n), wait, s, 0) == GroupRun(Finished(Done), Max(n, 1))
  {
    DriveSkip(Remaining(n), wait, s, 0, Max(n, 1) - 1);
  }

  /** A member's error at tick `k` ends the group with that error after
      `k + 1` ticks, whatever the budget and the elapsed time. */
  lemma FailureEndsGroup(b: Budget, wait: int, s: seq<TickSummary>, k: nat, e: RunError)
    requires k < |s| && Clean(s, wait, 0, k) && Survives(b, k)
    requires s[k].error == Some(e)
    ensures Drive(b, wait, s, 0) == GroupRun(Finished(Failed(e)), k + 1)
  {
    DriveSkip(b, wait, s, 0, k);
  }

  /** A tick that succeeds but overruns the interval while budget remains
      ends the group with "command is too slow.". */
  lemma DeadlineEndsGroup(b: Budget, wait: int, s: seq<TickSummary>, k: nat)
    requires k < |s| && Clean(s, wait, 0, k) && Survives(b, k + 1)
    requires s[k].error.None? && s[k].elapsed > wait
    ensures Drive(b, wait, s, 0) == GroupRun(Finished(Failed(TooSlow)), k + 1)
  {
    DriveSkip(b, wait, s, 0, k);
  }

  /** Without a numeric budget (`false`, or NaN) the budget never ends a
      group: it stops only by failing, or keeps waiting for ticks. */
  lemma {:induction false} UnboundedNeverDone(b: Budget, wait: int, s: seq<TickSummary>, from: nat)
    requires b.Unlimited? || b.NotANumber?
    requires from <= |s|
    ensures Drive(b, wait, s, from).status != Finished(Done)
    decreases |s| - from
  {
    if from < |s| {
      UnboundedNeverDone(Decrement(b), wait, s, from + 1);
    }
  }

  /** A numeric budget `n` bounds a group to at most max(n, 1) ticks. */
  lemma {:induction false} BudgetBoundsTicks(n: int, wait: int, s: seq<TickSummary>, from: nat)
    requires from <= |s|
    ensures Drive(Remaining(n), wait, s, from).ticks <= Max(n, 1)
    decreases |s| - from
  {
    if from < |s| && n > 1 {
      BudgetBoundsTicks(n - 1, wait, s, from + 1);
    }
  }

  /** Once a group has stopped, later tick inputs change nothing: no further
      tick is scheduled. */
  lemma {:induction false} StoppedStaysStopped(b: Budget, wait: int, s: seq<TickSummary>, more: seq<TickSummary>, from: nat)
    requires from <= |s|
    requires Drive(b, wait, s, from).status.Finished?
    ensures Drive(b, wait, s + more, from) == Drive(b, wait, s, from)
    decreases |s| - from
  {
    assert (s + more)[from] == s[from];
    match NextStep(s[from].error, b, wait, s[from].elapsed)
    case Stop(_) =>
    case Reschedule(b', _) =>
      StoppedStaysStopped(b', wait, s, more, from + 1);
  }

  // ---------------------------------------------------------------- imperative ticks

  /** The error a tick's fan-in reports: taking the members in order as the
      completion order, the first one that failed. */
  function FirstError(results: seq<ExecResult>): Option<RunError>
    decreases |results|
  {
    if results == [] then None
    else
      var e := FirstError(results[..|results| - 1]);
      if e.Some? then e
      else
        match Judge(results[|results| - 1])
        case Accept(_) => None
        case Reject(err) => Some(err)
  }

  /** The fan-in reports no error exactly when every member's result was
      accepted, and any error it reports is the error of a failing member. */
  lemma {:induction false} FirstErrorIsSomeFailure(results: seq<ExecResult>)
    ensures FirstError(results).None? <==> forall i :: 0 <= i < |results| ==> Judge(results[i]).Accept?
    ensures FirstError(results).Some? ==>
      exists i :: 0 <= i < |results| && Judge(results[i]) == Reject(FirstError(results).value)
    decreases |results|
  {
    if results != [] {
      var init := results[..|results| - 1];
      FirstErrorIsSomeFailure(init);
      assert forall i :: 0 <= i < |init| ==> init[i] == results[i];
    }
  }

  /** One tick's input: its start time, one command result per member, and
      the milliseconds until the fan-in completed. */
  datatype Tick = Tick(startMs: int, results: seq<ExecResult>, elapsedMs: int)

  /** What the state machine sees of a tick: its fan-in error and elapsed time. */
  function Summary(t: Tick): TickSummary {
    TickSummary(FirstError(t.results), t.elapsedMs)
  }

  /** The summaries of a sequence of ticks, in order. */
  function Summaries(ticks: seq<Tick>): seq<TickSummary>
  {
    seq(|ticks|, k requires 0 <= k < |ticks| => Summary(ticks[k]))
  }

  predicate Distinct(items: seq<Metric>) {
    forall i, j :: 0 <= i < j < |items| ==> items[i] != items[j]
  }

  predicate Shaped(ticks: seq<Tick>, members: nat) {
    forall k :: 0 <= k < |ticks| ==> |ticks[k].results| == members
  }

  /** Member `i`'s history. The methods state their effect on histories
      through this reader, so that a fact about one member's history is
      used only where a proof names that member. */
  ghost function Hist(items: seq<Metric>, i: nat): seq<Sample>
    requires i < |items|
    reads items
  {
    items[i].history
  }

  /** The samples member `i` gains from one tick. */
  function TickGain(t: Tick, i: nat): seq<Sample> {
    if i < |t.results| then Recorded(TickTimestamp(t.startMs), t.results[i]) else []
  }

  /** The samples member `i` gains over ticks `lo` up to `hi`, in tick order. */
  function Gained(ticks: seq<Tick>, lo: nat, hi: nat, i: nat): seq<Sample>
    requires lo <= hi <= |ticks|
    decreases hi - lo
  {
    if lo == hi then [] else TickGain(ticks[lo], i) + Gained(ticks, lo + 1, hi, i)
  }

  /** A single tick gains what that tick records. */
  lemma GainedOne(ticks: seq<Tick>, lo: nat, i: nat)
    requires lo < |ticks|
    ensures Gained(ticks, lo, lo + 1, i) == TickGain(ticks[lo], i)
  {
    assert TickGain(ticks[lo], i) + [] == TickGain(ticks[lo], i);
  }

  /** Extending a run of ticks by one tick appends that tick's samples. */
  lemma {:induction false} GainedSnoc(ticks: seq<Tick>, lo: nat, hi: nat, i: nat)
    requires lo <= hi < |ticks|
    ensures Gained(ticks, lo, hi + 1, i) == Gained(ticks, lo, hi, i) + TickGain(ticks[hi], i)
    decreases hi - lo
  {
    if lo == hi {
      GainedOne(ticks, lo, i);
    } else {
      GainedSnoc(ticks, lo + 1, hi, i);
      ConcatAssoc(TickGain(ticks[lo], i), Gained(ticks, lo + 1, hi, i), TickGain(ticks[hi], i));
    }
  }

  /** The empty sequence is a right unit of concatenation. */
  lemma AppendEmpty<T>(a: seq<T>)
    ensures a + [] == a
  {
  }

  /** Sequence concatenation is associative. */
  lemma ConcatAssoc<T>(a: seq<T>, b: seq<T>, c: seq<T>)
    ensures (a + b) + c == a + (b + c)
  {
  }

  /** The state machine at tick `from` takes the decision for that tick's
      fan-in error and elapsed time. */
  lemma DriveUnfold(budget: Budget, wait: int, ticks: seq<Tick>, from: nat, step: Step)
    requires from < |ticks|
    requires step == NextStep(FirstError(ticks[from].results), budget, wait, ticks[from].elapsedMs)
    ensures step.Stop? ==> Drive(budget, wait, Summaries(ticks), from) == GroupRun(Finished(step.outcome), 1)
    ensures step.Reschedule? ==>
      Drive(budget, wait, Summaries(ticks), from) == Shifted(Drive(step.budget, wait, Summaries(ticks), from + 1), 1)
  {
  }

  /** One tick: every member runs with the timestamp taken once from the
      tick's start; each member's history gains its own result's sample, each
      success is reported, and the tick reports a failing member's error if
      there is one. */
  method RunTick(items: seq<Metric>, t: Tick) returns (err: Option<RunError>)
    requires Distinct(items) && |t.results| == |items|
    modifies set m | m in items
    ensures err == FirstError(t.results)
    ensures forall i :: 0 <= i < |items| ==> Hist(items, i) == old(Hist(items, i)) + TickGain(t, i)
  {
    var results := t.results;
    var ts := TickTimestamp(t.startMs);
    err := None;
    for i := 0 to |items|
      invariant err == FirstError(results[..i])
      invariant forall j :: 0 <= j < i ==> Hist(items, j) == old(Hist(items, j)) + Recorded(ts, results[j])
      invariant forall j :: i <= j < |items| ==> Hist(items, j) == old(Hist(items, j))
    {
      // `line` is what `report` prints; console output is not modelled.
      var e, line := items[i].RunAndReport(ts, results[i]);
      assert results[..i + 1][..i] == results[..i];
      if err.None? {
        err := e;
      }
    }
    assert results[..|items|] == results;
  }

  /** Every member's history is its history `base[i]` from before the group
      started, followed by what it gained over ticks `lo` up to `hi`. */
  ghost predicate HistoriesAfter(items: seq<Metric>, base: seq<seq<Sample>>, ticks: seq<Tick>, lo: nat, hi: nat)
    requires lo <= hi <= |ticks|
    reads items
  {
    |base| == |items| &&
    forall i :: 0 <= i < |items| ==> Hist(items, i) == base[i] + Gained(ticks, lo, hi, i)
  }

  /** One tick of `schedule` and the decision its fan-in callback takes:
      the decision is the state machine's at tick `from`, and each member's
      history gains that tick's sample on top of the earlier ticks'. */
  method TickAndDecide(items: seq<Metric>, wait: int, samples: Budget, ticks: seq<Tick>, from: nat,
                       ghost base: seq<seq<Sample>>, ghost lo: nat) returns (step: Step)
    requires Distinct(items) && Shaped(ticks, |items|) && lo <= from < |ticks|
    requires HistoriesAfter(items, base, ticks, lo, from)
    modifies set m | m in items
    ensures step == NextStep(FirstError(ticks[from].results), samples, wait, ticks[from].elapsedMs)
    ensures step.Stop? ==> Drive(samples, wait, Summaries(ticks), from) == GroupRun(Finished(step.outcome), 1)
    ensures step.Reschedule? ==>
      Drive(samples, wait, Summaries(ticks), from) == Shifted(Drive(step.budget, wait, Summaries(ticks), from + 1), 1)
    ensures HistoriesAfter(items, base, ticks, lo, from + 1)
  {
    var t := ticks[from];
    var err := RunTick(items, t);
    step := NextStep(err, samples, wait, t.elapsedMs);
    DriveUnfold(samples, wait, ticks, from, step);
    forall i | 0 <= i < |items|
      ensures Hist(items, i) == base[i] + Gained(ticks, lo, from + 1, i)
    {
      GainedSnoc(ticks, lo, from, i);
      ConcatAssoc(base[i], Gained(ticks, lo, from, i), TickGain(t, i));
    }
  }

  /** `schedule`: run tick `from`, decide, and on a reschedule run the rest
      of the group from the next tick with the decremented budget. The
      outcome and the number of ticks run are the state machine's, and each
      member's history, which held the samples of ticks `lo` up to `from`,
      ends up holding exactly the samples of ticks `lo` up to the last tick
      that ran. */
  method RunGroup(items: seq<Metric>, wait: int, samples: Budget, ticks: seq<Tick>, from: nat,
                  ghost base: seq<seq<Sample>>, ghost lo: nat) returns (run: GroupRun)
    requires Distinct(items) && Shaped(ticks, |items|) && lo <= from <= |ticks|
    requires HistoriesAfter(items, base, ticks, lo, from)
    modifies set m | m in items
    ensures run == Drive(samples, wait, Summaries(ticks), from)
    ensures HistoriesAfter(items, base, ticks, lo, from + run.ticks)
    decreases |ticks| - from
  {
    if from == |ticks| {
      return GroupRun(Waiting(samples), 0);
    }
    var step := TickAndDecide(items, wait, samples, ticks, from, base, lo);
    if step.Stop? {
      run := GroupRun(Finished(step.outcome), 1);
    } else {
      var rest := RunGroup(items, wait, step.budget, ticks, from + 1, base, lo);
      run := Shifted(rest, 1);
      assert from + run.ticks == from + 1 + rest.ticks;
    }
  }

  // ---------------------------------------------------------------- properties of histories

  /** Samples are in non-decreasing time order. */
  predicate SortedByTime(h: seq<Sample>) {
    forall a, b :: 0 <= a < b < |h| ==> h[a].time <= h[b].time
  }

  /** Tick starts that never go back in time and lie before 2038-01-19. */
  predicate StartsOrdered(ticks: seq<Tick>) {
    (forall a :: 0 <= a < |ticks| ==> 0 <= ticks[a].startMs < TwoTo31 * 1000) &&
    (forall a, b :: 0 <= a < b < |ticks| ==> ticks[a].startMs <= ticks[b].startMs)
  }

  /** Putting samples stamped `ts` in front of a sorted history whose
      samples are no earlier than `ts` keeps it sorted and bounded by `ts`. */
  lemma SortedCons(added: seq<Sample>, g: seq<Sample>, ts: int)
    requires forall a :: 0 <= a < |added| ==> added[a].time == ts
    requires SortedByTime(g) && forall a :: 0 <= a < |g| ==> ts <= g[a].time
    ensures SortedByTime(added + g)
    ensures forall a :: 0 <= a < |added + g| ==> ts <= (added + g)[a].time
  {
  }

  /** With ordered tick starts, what a member gains is ordered by time, and
      no sample is earlier than the first tick's timestamp. */
  lemma {:induction false} GainedSorted(ticks: seq<Tick>, lo: nat, hi: nat, i: nat)
    requires lo <= hi <= |ticks| && StartsOrdered(ticks)
    ensures SortedByTime(Gained(ticks, lo, hi, i))
    ensures lo < hi ==> forall a :: 0 <= a < |Gained(ticks, lo, hi, i)| ==>
      TickTimestamp(ticks[lo].startMs) <= Gained(ticks, lo, hi, i)[a].time
    decreases hi - lo
  {
    if lo < hi {
      var ts := TickTimestamp(ticks[lo].startMs);
      GainedSorted(ticks, lo + 1, hi, i);
      var g := Gained(ticks, lo + 1, hi, i);
      if lo + 1 < hi {
        TimestampMonotone(ticks[lo].startMs, ticks[lo + 1].startMs);
      }
      assert forall a :: 0 <= a < |g| ==> ts <= g[a].time;
      SortedCons(TickGain(ticks[lo], i), g, ts);
    }
  }

  /** A group that ran to success had no failing member in any tick. */
  lemma {:induction false} DoneMeansNoFailure(b: Budget, wait: int, s: seq<TickSummary>, from: nat)
    requires from <= |s|
    requires Drive(b, wait, s, from).status == Finished(Done)
    ensures forall j :: from <= j < from + Drive(b, wait, s, from).ticks ==> s[j].error.None?
    decreases |s| - from
  {
    match NextStep(s[from].error, b, wait, s[from].elapsed)
    case Stop(_) =>
    case Reschedule(b', _) =>
      DoneMeansNoFailure(b', wait, s, from + 1);
  }

  /** Ticks without a failing member give every member one sample each. */
  lemma {:induction false} CleanTicksGainOneEach(ticks: seq<Tick>, lo: nat, hi: nat, i: nat)
    requires lo <= hi <= |ticks|
    requires forall k :: lo <= k < hi ==> i < |ticks[k].results|
    requires forall k :: lo <= k < hi ==> FirstError(ticks[k].results).None?
    ensures |Gained(ticks, lo, hi, i)| == hi - lo
    decreases hi - lo
  {
    if lo < hi {
      CleanTicksGainOneEach(ticks, lo + 1, hi, i);
      FirstErrorIsSomeFailure(ticks[lo].results);
      assert Judge(ticks[lo].results[i]).Accept?;
      RecordedAtMostOne(TickTimestamp(ticks[lo].startMs), ticks[lo].results[i]);
    }
  }

  /** A group that stopped with success after `n` ticks left every member
      with exactly `n` new samples. */
  lemma DoneGroupSampledEveryTick(b: Budget, wait: int, ticks: seq<Tick>, i: nat)
    requires forall k :: 0 <= k < |ticks| ==> i < |ticks[k].results|
    requires Drive(b, wait, Summaries(ticks), 0).status == Finished(Done)
    ensures |Gained(ticks, 0, Drive(b, wait, Summaries(ticks), 0).ticks, i)| == Drive(b, wait, Summaries(ticks), 0).ticks
  {
    var n := Drive(b, wait, Summaries(ticks), 0).ticks;
    DoneMeansNoFailure(b, wait, Summaries(ticks), 0);
    assert forall k :: 0 <= k < n ==> Summaries(ticks)[k] == Summary(ticks[k]);
    CleanTicksGainOneEach(ticks, 0, n, i);
  }
}
