/**
 Partitioning the metrics into scheduling groups. The partition follows
 underscore's `groupBy`: walk the list in order and append each element to
 the group of its key. The poller's key ignores the metric and is the global
 polling interval in milliseconds, so all metrics fall into a single group.
 */
module Grouping {

  /** The elements of `xs` whose key is `k`, in their original order. */
  function WithKey<T>(xs: seq<T>, key: T -> int, k: int): seq<T>
    decreases |xs|
  {
    if xs == [] then []
    else
      var init := WithKey(xs[..|xs| - 1], key, k);
      if key(xs[|xs| - 1]) == k then init + [xs[|xs| - 1]] else init
  }

  /** `_.groupBy(xs, key)`: a map from each key that occurs to its group. */
  function GroupBy<T>(xs: seq<T>, key: T -> int): (g: map<int, seq<T>>)
    decreases |xs|
  {
    if xs == [] then map[]
    else
      var g := GroupBy(xs[..|xs| - 1], key);
      var x := xs[|xs| - 1];
      var k := key(x);
      g[k := (if k in g then g[k] else []) + [x]]
  }

  /** Every key of the partition is the key of some element, every element's
      key is present, and each group is exactly the elements with that key
      in their original order; so every element lies in exactly one group. */
  lemma {:induction false} GroupByPartitions<T>(xs: seq<T>, key: T -> int)
    ensures forall k :: k in GroupBy(xs, key) <==> exists i :: 0 <= i < |xs| && key(xs[i]) == k
    ensures forall k :: k in GroupBy(xs, key) ==> GroupBy(xs, key)[k] == WithKey(xs, key, k)
    decreases |xs|
  {
    if xs != [] {
      var init := xs[..|xs| - 1];
      GroupByPartitions(init, key);
      var g := GroupBy(xs, key);
      var x := xs[|xs| - 1];
      var g0 := GroupBy(init, key);
      assert g == g0[key(x) := (if key(x) in g0 then g0[key(x)] else []) + [x]];
      forall k ensures k in g <==> exists i :: 0 <= i < |xs| && key(xs[i]) == k {
        if k == key(x) {
          assert key(xs[|xs| - 1]) == k;
        } else {
          if k in g {
            assert k in g0;
            var i :| 0 <= i < |init| && key(init[i]) == k;
            assert key(xs[i]) == k;
          }
          if exists i :: 0 <= i < |xs| && key(xs[i]) == k {
            var i :| 0 <= i < |xs| && key(xs[i]) == k;
            assert key(init[i]) == k;
          }
        }
      }
      forall k | k in g ensures g[k] == WithKey(xs, key, k) {
        if k != key(x) {
          WithKeyAbsent(init, key, k);
        } else if k !in GroupBy(init, key) {
          WithKeyAbsent(init, key, k);
        }
      }
    }
  }

  /** No element has key `k` exactly when the group for `k` is empty. */
  lemma {:induction false} WithKeyAbsent<T>(xs: seq<T>, key: T -> int, k: int)
    ensures WithKey(xs, key, k) == [] <==> forall i :: 0 <= i < |xs| ==> key(xs[i]) != k
    decreases |xs|
  {
    if xs != [] {
      var init := xs[..|xs| - 1];
      WithKeyAbsent(init, key, k);
      assert forall i :: 0 <= i < |init| ==> init[i] == xs[i];
    }
  }

  /** When every element has key `c`, the group for `c` is the whole list. */
  lemma {:induction false} WithKeyAll<T>(xs: seq<T>, key: T -> int, c: int)
    requires forall i :: 0 <= i < |xs| ==> key(xs[i]) == c
    ensures WithKey(xs, key, c) == xs
    decreases |xs|
  {
    if xs != [] {
      var init := xs[..|xs| - 1];
      assert forall i :: 0 <= i < |init| ==> init[i] == xs[i];
      WithKeyAll(init, key, c);
      assert init + [xs[|xs| - 1]] == xs;
    }
  }

  /** A key that gives every element the same value `c` collects everything,
      in order, into one group under `c`; an empty list yields no group. */
  lemma ConstantKeyOneGroup<T>(xs: seq<T>, key: T -> int, c: int)
    requires forall i :: 0 <= i < |xs| ==> key(xs[i]) == c
    ensures xs == [] ==> GroupBy(xs, key) == map[]
    ensures xs != [] ==> GroupBy(xs, key) == map[c := xs]
  {
    var g := GroupBy(xs, key);
    GroupByPartitions(xs, key);
    if xs != [] {
      assert key(xs[0]) == c;
      forall k ensures k in g <==> k == c {
        if k in g {
          var i :| 0 <= i < |xs| && key(xs[i]) == k;
        }
      }
      assert g.Keys == {c};
      WithKeyAll(xs, key, c);
      assert g[c] == xs;
    } else {
      assert g.Keys == {};
    }
  }

  /** The poller's grouping: the key is the global `frequency * 1000`, read
      once from the options, whatever each metric's own settings say. */
  function GroupByFrequency<T>(metrics: seq<T>, frequency: int): (g: map<int, seq<T>>)
    ensures metrics == [] ==> g == map[]
    ensures metrics != [] ==> g.Keys == {frequency * 1000} && g[frequency * 1000] == metrics
  {
    var key := (_: T) => frequency * 1000;
    ConstantKeyOneGroup(metrics, key, frequency * 1000);
    GroupBy(metrics, key)
  }
}
