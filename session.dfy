/**
 The run coordinator: group the metrics, then drive each group with the
 parsed sample budget and the group's key as its polling interval. Because
 the key is the global interval, there is one group when there is any metric,
 and the coordinator reduces to a single scheduler.
 */
module Session {
  import opened JsValues
  import opened Metrics
  import opened Schedule
  import opened Grouping

  /** Starts the scheduler for each group with `wait` = the group's key and
      the budget parsed from the samples option. Returns the state of the
      one group there is, or None when there are no metrics. */
  method RunSession(metrics: seq<Metric>, frequency: int, samples: Option<IntParse>, ticks: seq<Tick>)
    returns (run: Option<GroupRun>)
    requires Distinct(metrics) && Shaped(ticks, |metrics|)
    modifies set m | m in metrics
    ensures metrics == [] ==> run == None
    ensures metrics != [] ==> run == Some(Drive(ParseSamples(samples), frequency * 1000, Summaries(ticks), 0))
    ensures run.Some? ==> forall i :: 0 <= i < |metrics| ==>
      metrics[i].history == old(metrics[i].history) + Gained(ticks, 0, run.value.ticks, i)
  {

    var groups := GroupByFrequency(metrics, frequency);
    var wait := frequency * 1000;
    if wait in groups {
      var items := groups[wait];
      ghost var base := seq(|items|, i requires 0 <= i < |items| reads items => items[i].history);
      forall i | 0 <= i < |items|
        ensures Hist(items, i) == base[i] + Gained(ticks, 0, 0, i)
      {
        AppendEmpty(base[i]);
      }
      var r := RunGroup(items, wait, ParseSamples(samples), ticks, 0, base, 0);
      run := Some(r);
      assert HistoriesAfter(items, base, ticks, 0, r.ticks);
      forall i | 0 <= i < |metrics|
        ensures metrics[i].history == old(metrics[i].history) + Gained(ticks, 0, r.ticks, i)
      {
        assert base[i] == old(metrics[i].history);
        assert Hist(items, i) == base[i] + Gained(ticks, 0, r.ticks, i);
      }

    } else {
      run := None;
    }
  }

  /** The poller from start to finish: one metric per configuration entry,
      then the session over the given ticks. Every metric's history is
      exactly the samples its command yielded in the ticks that ran, and
      with tick starts in order (before 2038) every history is sorted by
      time, which is the order the `{name, history}` output lists them in. */
  method Poll(defs: seq<MetricDef>, frequency: int, samples: Option<IntParse>, ticks: seq<Tick>)
    returns (ms: seq<Metric>, run: Option<GroupRun>)
    requires Shaped(ticks, |defs|)
    ensures |ms| == |defs|
    ensures forall i :: 0 <= i < |ms| ==> ms[i].name == defs[i].name && ms[i].command == defs[i].command
    ensures defs == [] ==> run == None
    ensures defs != [] ==> run == Some(Drive(ParseSamples(samples), frequency * 1000, Summaries(ticks), 0))
    ensures run.Some? ==> forall i :: 0 <= i < |ms| ==> ms[i].history == Gained(ticks, 0, run.value.ticks, i)
    ensures StartsOrdered(ticks) ==> forall i :: 0 <= i < |ms| ==> SortedByTime(ms[i].history)
  {
    ms := MakeMetrics(defs);
    run := RunSession(ms, frequency, samples, ticks);
    if run.Some? {
      forall i | 0 <= i < |ms|
        ensures ms[i].history == Gained(ticks, 0, run.value.ticks, i)
        ensures StartsOrdered(ticks) ==> SortedByTime(ms[i].history)
      {
        assert ms[i].history == [] + Gained(ticks, 0, run.value.ticks, i);
        assert [] + Gained(ticks, 0, run.value.ticks, i) == Gained(ticks, 0, run.value.ticks, i);
        if StartsOrdered(ticks) {
          GainedSorted(ticks, 0, run.value.ticks, i);
        }
      }
    }
  }
}
