/**
 A metric: a named probe command and the samples it has recorded so far.
 The external command is not run here; what its completion callback receives
 (the exec error, the text on stderr and the number `parseFloat` makes of
 stdout) is an input of type ExecResult.
 */
module Metrics {
  import opened JsValues

  /** One observation: the tick's unix time in seconds and the parsed value. */
  datatype Sample = Sample(time: int, value: Num)

  /** What the completion callback of one command execution receives. */
  datatype ExecResult = ExecResult(error: Option<string>, stderr: string, parsed: Num)

  /** Why a run or a group fails. */
  datatype RunError =
    | ExecFailed(message: string)    // the error object passed by exec
    | StderrNotEmpty(stderr: string) // `new Error(stderr)`
    | InvalidReturnValue             // the parsed value failed the validity check
    | TooSlow                        // a tick took longer than the polling interval

  /** The message each error carries. */
  function Message(e: RunError): string {
    match e
    case ExecFailed(m) => m
    case StderrNotEmpty(s) => s
    case InvalidReturnValue => "Invalid return value"
    case TooSlow => "command is too slow."
  }

  /** The validity test applied to the parsed value, written with the three
      JavaScript operators it uses: `!out && out !== NaN && out != 0`. */
  predicate InvalidValue(out: Num) {
    Not(out) && StrictNotEqual(out, NaN) && LooseNotEqual(out, Finite(0.0))
  }

  /** The validity test rejects exactly a NaN parse: zero and both
      infinities pass it. */
  lemma InvalidValueIffNaN(out: Num)
    ensures InvalidValue(out) <==> out.NaN?
    ensures !InvalidValue(Finite(0.0))
    ensures !InvalidValue(Infinity(true)) && !InvalidValue(Infinity(false))
  {
    StrictNotEqualNaN(out);
  }

  /** The decision the completion callback takes on one command result. */
  datatype Verdict = Accept(value: Num) | Reject(error: RunError)

  /** The completion callback's decision: an exec error first, then
      non-empty stderr, then a value the validity test rejects, which by
      InvalidValueIffNaN is exactly a NaN parse. */
  function Judge(res: ExecResult): Verdict {
    if res.error.Some? then Reject(ExecFailed(res.error.value))
    else if res.stderr != "" then Reject(StderrNotEmpty(res.stderr))
    else if res.parsed.NaN? then Reject(InvalidReturnValue)
    else Accept(res.parsed)
  }

  /** The decision's fixed precedence, and acceptance exactly when none of
      the three checks fails; an accepted result keeps its parsed value, and
      a rejection carries exec's message, the stderr text, or the text
      "Invalid return value". */
  lemma JudgePrecedence(res: ExecResult)
    ensures res.error.Some? ==> Judge(res) == Reject(ExecFailed(res.error.value))
    ensures res.error.None? && res.stderr != "" ==> Judge(res) == Reject(StderrNotEmpty(res.stderr))
    ensures res.error.None? && res.stderr == "" && InvalidValue(res.parsed) ==> Judge(res) == Reject(InvalidReturnValue)
    ensures Judge(res).Accept? <==> res.error.None? && res.stderr == "" && !InvalidValue(res.parsed)
    ensures Judge(res).Accept? ==> Judge(res).value == res.parsed
    ensures Judge(res).Reject? ==>
      Message(Judge(res).error) == (if res.error.Some? then res.error.value else if res.stderr != "" then res.stderr else "Invalid return value")
  {
    InvalidValueIffNaN(res.parsed);
  }

  /** What one completion adds to a history: one sample stamped with the
      tick's time on success, nothing on failure. */
  function Recorded(unixtime: int, res: ExecResult): seq<Sample> {
    match Judge(res)
    case Accept(v) => [Sample(unixtime, v)]
    case Reject(_) => []
  }

  /** A completion adds at most one sample, and adds one exactly when the
      result is accepted: the parsed value stamped with the tick's time. */
  lemma RecordedAtMostOne(unixtime: int, res: ExecResult)
    ensures |Recorded(unixtime, res)| <= 1
    ensures Recorded(unixtime, res) != [] <==> Judge(res).Accept?
    ensures Recorded(unixtime, res) != [] ==> Recorded(unixtime, res) == [Sample(unixtime, res.parsed)]
  {
  }

  /** The configuration entry a metric is built from. */
  datatype MetricDef = MetricDef(name: string, command: string)

  /** The `{name, history}` projection that `toJSON` hands to the serialiser. */
  datatype Snapshot = Snapshot(name: string, history: seq<Sample>)

  class Metric {
    const name: string
    const command: string
    var history: seq<Sample>

    /** A fresh metric starts with an empty history; the history field is set
        before the settings are merged, so a setting cannot pre-fill it. */
    constructor (def: MetricDef)
      ensures name == def.name && command == def.command
      ensures history == []
    {
      name := def.name;
      command := def.command;
      history := [];
    }

    /** The completion callback of `run`: checks the command's result in the
        order exec error, stderr, validity, and on success appends exactly one
        sample stamped `unixtime`. Every error path leaves history alone. */
    method Complete(unixtime: int, res: ExecResult) returns (err: Option<RunError>)
      modifies this
      ensures err.None? <==> Judge(res).Accept?
      ensures err.Some? ==> Judge(res) == Reject(err.value)
      ensures history == old(history) + Recorded(unixtime, res)
      ensures err.None? ==> history == old(history) + [Sample(unixtime, res.parsed)]
      ensures err.Some? ==> history == old(history)
    {
      if res.error.Some? {
        return Some(ExecFailed(res.error.value));
      }
      if res.stderr != "" {
        return Some(StderrNotEmpty(res.stderr));
      }
      var out := res.parsed;
      if InvalidValue(out) {
        return Some(InvalidReturnValue);
      }
      InvalidValueIffNaN(out);
      history := history + [Sample(unixtime, out)];
      err := None;
    }

    /** The task a tick defers for this metric: run the command, and after a
        success call `report`, which then shows the sample just appended. */
    method RunAndReport(unixtime: int, res: ExecResult) returns (err: Option<RunError>, shown: Option<Sample>)
      modifies this
      ensures err.None? <==> Judge(res).Accept?
      ensures err.Some? ==> Judge(res) == Reject(err.value)
      ensures history == old(history) + Recorded(unixtime, res)
      ensures shown.Some? <==> err.None?
      ensures shown.Some? ==> shown.value == Sample(unixtime, res.parsed)
    {
      err := Complete(unixtime, res);
      if err.Some? {
        return err, None;
      }
      var s := Report();
      shown := Some(s);
    }

    /** The sample `report` prints: the most recent one. */
    method Report() returns (s: Sample)
      requires history != []
      ensures s in history
      ensures s == history[|history| - 1]
    {
      s := history[|history| - 1];
    }

    /** `toJSON`: the name and the history, without the command. */
    function ToJSON(): (s: Snapshot)
      reads this
      ensures s.name == name && s.history == history
    {
      Snapshot(name, history)
    }
  }

  /** Two metrics that differ only in their command serialise identically. */
  lemma SnapshotOmitsCommand(a: Metric, b: Metric)
    requires a.name == b.name && a.history == b.history
    ensures a.ToJSON() == b.ToJSON()
  {
  }

  /** Builds one metric per configuration entry, in order. */
  method MakeMetrics(defs: seq<MetricDef>) returns (ms: seq<Metric>)
    ensures |ms| == |defs|
    ensures forall i :: 0 <= i < |ms| ==> fresh(ms[i])
    ensures forall i :: 0 <= i < |ms| ==> ms[i].name == defs[i].name && ms[i].command == defs[i].command
    ensures forall i :: 0 <= i < |ms| ==> ms[i].history == []
    ensures forall i, j :: 0 <= i < j < |ms| ==> ms[i] != ms[j]
  {
    ms := [];
    for k := 0 to |defs|
      invariant |ms| == k
      invariant forall i :: 0 <= i < k ==> fresh(ms[i])
      invariant forall i :: 0 <= i < k ==> ms[i].name == defs[i].name && ms[i].command == defs[i].command
      invariant forall i :: 0 <= i < k ==> ms[i].history == []
      invariant forall i, j :: 0 <= i < j < k ==> ms[i] != ms[j]
    {
      var m := new Metric(defs[k]);
      ms := ms + [m];
    }
  }
}
