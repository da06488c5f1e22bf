/** Sequences without repetition, and sizes and keys of sets and maps. */
module Collections {
  ghost predicate Distinct<T(!new)>(order: seq<T>) {
    forall i, j :: 0 <= i < j < |order| ==> order[i] != order[j]
  }

  /** What a queue holds that drops its oldest elements. */
  function LastOf<T>(s: seq<T>, n: nat): seq<T> {
    if |s| <= n then s else s[|s| - n..]
  }

  lemma {:induction false} DistinctCardinality<T(!new)>(order: seq<T>, members: set<T>)
    requires Distinct(order) && forall x :: x in members <==> x in order
    ensures |members| == |order|
    decreases |order|
  {
    if order == [] {
      assert members == {};
    } else {
      var last := order[|order| - 1];
      DistinctCardinality(order[..|order| - 1], members - {last});
    }
  }

  lemma SubsetSize<T>(a: set<T>, b: set<T>)
    requires a <= b
    ensures |a| <= |b|
  {
    assert b == a + (b - a);
  }

  lemma KeysAfterPut<K, V>(m: map<K, V>, k: K, v: V)
    ensures m[k := v].Keys == m.Keys + {k}
    ensures k in m ==> m[k := v].Keys == m.Keys
  {}

  lemma SizeAfterPut<K, V>(m: map<K, V>, k: K, v: V)
    ensures |m[k := v]| == |m| + (if k in m then 0 else 1)
  {
    assert |m[k := v].Keys| == |m[k := v]| && |m.Keys| == |m|;
    KeysAfterPut(m, k, v);
  }

  lemma PutThenDrop<K, V>(m: map<K, V>, k: K, v: V)
    ensures m[k := v] - {k} == m - {k}
  {}

  lemma PutTwice<K, V>(m: map<K, V>, k: K, first: V, second: V)
    ensures m[k := first][k := second] == m[k := second]
  {}

  lemma KeysAfterDrop<K, V>(m: map<K, V>, gone: set<K>)
    ensures (m - gone).Keys == m.Keys - gone
  {}

  lemma SizeAfterDrop<K, V>(m: map<K, V>, gone: set<K>)
    ensures |m - gone| <= |m|
  {
    SubsetSize((m - gone).Keys, m.Keys);
    assert |m - gone| == |(m - gone).Keys| && |m| == |m.Keys|;
  }

  // ---------------------------------------------------------------- logs without near repetitions

  /** Two occurrences of one element are more than `window` positions apart. */
  ghost predicate WindowFresh<T(!new)>(log: seq<T>, window: nat) {
    forall i, j :: 0 <= i < j < |log| && j - i <= window ==> log[i] != log[j]
  }

  lemma LastOfAppend<T>(log: seq<T>, k: T, n: nat)
    requires 0 < n
    ensures LastOf(LastOf(log, n) + [k], n) == LastOf(log + [k], n)
  {}

  lemma ExtendWindow<T(!new)>(log: seq<T>, key: T, window: nat)
    requires WindowFresh(log, window) && key !in LastOf(log, window)
    ensures WindowFresh(log + [key], window)
  {
    forall i | 0 <= i < |log| && |log| - i <= window
      ensures log[i] != key
    {
      var recent := LastOf(log, window);
      assert recent[i - (|log| - |recent|)] == log[i];
    }
  }

  function Members<T>(log: seq<T>): set<T> {
    set k | k in log
  }

  /** A window of distinct elements lies between two equal ones. */
  lemma FreshWindowIsFull<T(!new)>(log: seq<T>, window: nat, i: nat, j: nat)
    requires WindowFresh(log, window) && i < j < |log| && log[i] == log[j]
    ensures |Members(log[i + 1..j]) - {log[j]}| >= window
  {
    var recent := log[j - window..j];
    assert Distinct(recent);
    DistinctCardinality(recent, Members(recent));
    forall k <- Members(recent)
      ensures k in Members(log[i + 1..j]) - {log[j]}
    {
      var m :| 0 <= m < |recent| && recent[m] == k;
      assert log[i + 1..j][j - window + m - (i + 1)] == k;
    }
    hide Members, WindowFresh;
    SubsetSize(Members(recent), Members(log[i + 1..j]) - {log[j]});
  }
}
