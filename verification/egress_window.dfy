/** The rolling egress window: one bucket per second, pruned from the front.  It is proved to give the rate
    that filtering the whole event log would give. */
module EgressWindow {
  import opened Prelude

  /** Some bytes sent in some second; also the form of one bucket. */
  datatype Event = Event(second: nat, bytes: nat)

  function Oldest(second: nat, window: nat): nat {
    SatSub(second, SatSub(window, 1))
  }

  // u64::saturating_mul
  function SatMul(a: nat, b: nat): nat {
    Min(a * b, U64_MAX)
  }

  // ---------------------------------------------------------------- the deque

  function Pruned(buckets: seq<Event>, second: nat, window: nat): seq<Event> {
    if buckets != [] && buckets[0].second < Oldest(second, window) then Pruned(buckets[1..], second, window)
    else buckets
  }

  function Added(buckets: seq<Event>, e: Event): seq<Event> {
    if buckets != [] && buckets[|buckets| - 1].second == e.second then
      var last := buckets[|buckets| - 1];
      buckets[..|buckets| - 1] + [Event(e.second, SatAdd(last.bytes, e.bytes))]
    else buckets + [e]
  }

  function SatSum(buckets: seq<Event>): nat {
    if buckets == [] then 0 else SatAdd(SatSum(buckets[..|buckets| - 1]), buckets[|buckets| - 1].bytes)
  }

  /** Bits per second and seconds observed. */
  function RateOf(buckets: seq<Event>, second: nat, window: nat): (nat, nat) {
    if buckets == [] then (0, 0)
    else
      var observed := Min(SatAdd(SatSub(second, buckets[0].second), 1), window);
      (Bps(SatSum(buckets), observed), observed)
  }

  function Bps(bytes: nat, observed: nat): nat {
    SatMul(bytes, 8) / Max(observed, 1)
  }

  class RollingEgressWindow {
    var buckets: seq<Event>

    constructor ()
      ensures buckets == []
    {
      buckets := [];
    }

    method Prune(second: nat, window: nat)
      modifies this
      ensures buckets == Pruned(old(buckets), second, window)
    {
      var oldest := SatSub(second, SatSub(window, 1));
      while buckets != [] && buckets[0].second < oldest
        invariant Pruned(buckets, second, window) == Pruned(old(buckets), second, window)
        decreases |buckets|
      {
        buckets := buckets[1..];
      }
    }

    method Record(second: nat, bytes: nat, window: nat)
      modifies this
      ensures buckets == Added(Pruned(old(buckets), second, window), Event(second, bytes))
    {
      Prune(second, window);
      if buckets != [] {
        var last := buckets[|buckets| - 1];
        if last.second == second {
          buckets := buckets[|buckets| - 1 := last.(bytes := SatAdd(last.bytes, bytes))];
          return;
        }
      }
      buckets := buckets + [Event(second, bytes)];
    }

    method Rate(second: nat, window: nat) returns (bps: nat, observed: nat)
      modifies this
      ensures buckets == Pruned(old(buckets), second, window)
      ensures (bps, observed) == RateOf(buckets, second, window)
    {
      hide Bps, SatAdd;
      Prune(second, window);
      if buckets == [] {
        return 0, 0;
      }
      observed := Min(SatAdd(SatSub(second, buckets[0].second), 1), window);
      var bytes := 0;
      for i := 0 to |buckets|
        invariant bytes == SatSum(buckets[..i])
      {
        assert buckets[..i + 1][..i] == buckets[..i];
        bytes := SatAdd(bytes, buckets[i].bytes);
      }
      assert buckets[..|buckets|] == buckets;
      bps := Bps(bytes, observed);
    }
  }

  // ---------------------------------------------------------------- the event log

  /** Events no older than the window. */
  function Recent(log: seq<Event>, oldest: nat): seq<Event> {
    if log == [] then []
    else
      Recent(log[..|log| - 1], oldest) + (if log[|log| - 1].second >= oldest then [log[|log| - 1]] else [])
  }

  function Grouped(log: seq<Event>): seq<Event> {
    if log == [] then [] else Added(Grouped(log[..|log| - 1]), log[|log| - 1])
  }

  function TotalBytes(log: seq<Event>): nat {
    if log == [] then 0 else TotalBytes(log[..|log| - 1]) + log[|log| - 1].bytes
  }

  /** The rate from first principles: all bytes of the window over the seconds since its first event. */
  function LogRate(log: seq<Event>, second: nat, window: nat): (nat, nat) {
    var recent := Recent(log, Oldest(second, window));
    if recent == [] then (0, 0)
    else
      var observed := Min(SatAdd(SatSub(second, recent[0].second), 1), window);
      (Bps(Min(TotalBytes(recent), U64_MAX), observed), observed)
  }

  ghost predicate Nondecreasing(log: seq<Event>) {
    forall i, j :: 0 <= i <= j < |log| ==> log[i].second <= log[j].second
  }

  ghost predicate StrictlyIncreasing(buckets: seq<Event>) {
    forall i, j :: 0 <= i < j < |buckets| ==> buckets[i].second < buckets[j].second
  }

  lemma RecentSnoc(log: seq<Event>, e: Event, oldest: nat)
    ensures Recent(log + [e], oldest) == Recent(log, oldest) + (if e.second >= oldest then [e] else [])
  {
    assert (log + [e])[..|log|] == log;
  }

  lemma GroupedSnoc(log: seq<Event>, e: Event)
    ensures Grouped(log + [e]) == Added(Grouped(log), e)
  {
    assert (log + [e])[..|log|] == log;
  }

  /** Buckets carry the seconds of the events, each once, in order. */
  lemma {:induction false} GroupedIsOrdered(log: seq<Event>)
    requires Nondecreasing(log)
    ensures StrictlyIncreasing(Grouped(log))
    ensures log == [] <==> Grouped(log) == []
    ensures log != [] ==> Grouped(log)[|Grouped(log)| - 1].second == log[|log| - 1].second
    ensures log != [] ==> Grouped(log)[0].second == log[0].second
  {
    if log != [] {
      var front, last := log[..|log| - 1], log[|log| - 1];
      GroupedIsOrdered(front);
      AddedIsOrdered(Grouped(front), last);
      assert front != [] ==> front[|front| - 1].second <= last.second;
    }
  }

  lemma AddedIsOrdered(buckets: seq<Event>, e: Event)
    requires StrictlyIncreasing(buckets) && (buckets != [] ==> buckets[|buckets| - 1].second <= e.second)
    ensures StrictlyIncreasing(Added(buckets, e))
    ensures Added(buckets, e) != [] && Added(buckets, e)[|Added(buckets, e)| - 1].second == e.second
    ensures buckets != [] ==> Added(buckets, e)[0].second == buckets[0].second
  {}

  lemma {:induction false} GroupedSum(log: seq<Event>)
    ensures SatSum(Grouped(log)) == Min(TotalBytes(log), U64_MAX)
  {
    if log != [] {
      var front, last := log[..|log| - 1], log[|log| - 1];
      GroupedSum(front);
      AddedSum(Grouped(front), last);
    }
  }

  lemma AddedSum(buckets: seq<Event>, e: Event)
    ensures SatSum(Added(buckets, e)) == SatAdd(SatSum(buckets), e.bytes)
  {
    var after := Added(buckets, e);
    if buckets != [] && buckets[|buckets| - 1].second == e.second {
      assert after[..|after| - 1] == buckets[..|buckets| - 1];
    } else {
      assert after[..|after| - 1] == buckets;
    }
  }

  /** Dropping old buckets is grouping the recent events only. */
  lemma {:induction false} PrunedIsRecent(log: seq<Event>, second: nat, window: nat)
    requires Nondecreasing(log)
    ensures Pruned(Grouped(log), second, window) == Grouped(Recent(log, Oldest(second, window)))
  {
    if log != [] {
      var front, last := log[..|log| - 1], log[|log| - 1];
      var oldest := Oldest(second, window);
      PrunedIsRecent(front, second, window);
      GroupedIsOrdered(front);
      if last.second >= oldest {
        PruneThenAdd(Grouped(front), last, second, window);
        GroupedSnoc(Recent(front, oldest), last);
      } else {
        NothingRecent(log, oldest);
        GroupedIsOrdered(log);
        PruneAll(Grouped(log), second, window);
      }
    }
  }

  lemma {:induction false} NothingRecent(log: seq<Event>, oldest: nat)
    requires Nondecreasing(log) && (log != [] ==> log[|log| - 1].second < oldest)
    ensures Recent(log, oldest) == []
  {
    if log != [] {
      NothingRecent(log[..|log| - 1], oldest);
    }
  }

  lemma {:induction false} PruneAll(buckets: seq<Event>, second: nat, window: nat)
    requires forall b <- buckets :: b.second < Oldest(second, window)
    ensures Pruned(buckets, second, window) == []
  {
    if buckets != [] {
      PruneAll(buckets[1..], second, window);
    }
  }

  lemma {:induction false} PruneThenAdd(buckets: seq<Event>, e: Event, second: nat, window: nat)
    requires StrictlyIncreasing(buckets) && e.second >= Oldest(second, window)
    ensures Pruned(Added(buckets, e), second, window) == Added(Pruned(buckets, second, window), e)
  {
    if buckets != [] && buckets[0].second < Oldest(second, window) {
      PruneThenAdd(buckets[1..], e, second, window);
      assert Added(buckets, e)[0] == buckets[0];
      assert Added(buckets, e)[1..] == Added(buckets[1..], e);
    }
  }

  lemma {:induction false} RecentOfRecent(log: seq<Event>, older: nat, newer: nat)
    requires older <= newer
    ensures Recent(Recent(log, older), newer) == Recent(log, newer)
  {
    if log != [] {
      var front, last := log[..|log| - 1], log[|log| - 1];
      RecentOfRecent(front, older, newer);
      if last.second >= older {
        RecentSnoc(Recent(front, older), last, newer);
      } else {
        assert Recent(log, older) == Recent(front, older);
      }
    }
  }

  lemma {:induction false} RecentIsOrdered(log: seq<Event>, oldest: nat)
    requires Nondecreasing(log)
    ensures Nondecreasing(Recent(log, oldest))
    ensures forall e <- Recent(log, oldest) :: e.second >= oldest && e in log
  {
    if log != [] {
      var front, last := log[..|log| - 1], log[|log| - 1];
      RecentIsOrdered(front, oldest);
      LastIsLatest(log);
      OneMoreInOrder(Recent(front, oldest), last);
      assert Recent(log, oldest) == Recent(front, oldest) + (if last.second >= oldest then [last] else []);
    }
  }

  lemma LastIsLatest(log: seq<Event>)
    requires Nondecreasing(log) && log != []
    ensures forall e <- log[..|log| - 1] :: e in log && e.second <= log[|log| - 1].second
  {}

  lemma OneMoreInOrder(log: seq<Event>, e: Event)
    requires Nondecreasing(log) && forall f <- log :: f.second <= e.second
    ensures Nondecreasing(log + [e])
  {}

  // ---------------------------------------------------------------- any calls in order of time

  datatype Op = Send(second: nat, bytes: nat) | Query(second: nat)

  function Buckets(ops: seq<Op>, window: nat): seq<Event> {
    if ops == [] then []
    else
      var before := Buckets(ops[..|ops| - 1], window);
      match ops[|ops| - 1]
      case Send(second, bytes) => Added(Pruned(before, second, window), Event(second, bytes))
      case Query(second) => Pruned(before, second, window)
  }

  function Log(ops: seq<Op>): seq<Event> {
    if ops == [] then []
    else
      match ops[|ops| - 1]
      case Send(second, bytes) => Log(ops[..|ops| - 1]) + [Event(second, bytes)]
      case Query(_) => Log(ops[..|ops| - 1])
  }

  ghost predicate InOrder(ops: seq<Op>) {
    forall i, j :: 0 <= i <= j < |ops| ==> ops[i].second <= ops[j].second
  }

  lemma {:induction false} LogIsOrdered(ops: seq<Op>)
    requires InOrder(ops)
    ensures Nondecreasing(Log(ops))
    ensures forall e <- Log(ops) :: ops != [] && e.second <= ops[|ops| - 1].second
  {
    if ops != [] {
      LogIsOrdered(ops[..|ops| - 1]);
    }
  }

  /** The deque is the recent part of the log, one bucket a second. */
  lemma {:induction false} BucketsAreRecentLog(ops: seq<Op>, window: nat)
    requires InOrder(ops) && ops != []
    ensures Buckets(ops, window) == Grouped(Recent(Log(ops), Oldest(ops[|ops| - 1].second, window)))
  {
    var front, last := ops[..|ops| - 1], ops[|ops| - 1];
    var oldest := Oldest(last.second, window);
    LogIsOrdered(front);
    var before := Recent(Log(front), if front == [] then 0 else Oldest(front[|front| - 1].second, window));
    RecentIsOrdered(Log(front), if front == [] then 0 else Oldest(front[|front| - 1].second, window));
    if front != [] {
      BucketsAreRecentLog(front, window);
      RecentOfRecent(Log(front), Oldest(front[|front| - 1].second, window), oldest);
    }
    PrunedIsRecent(before, last.second, window);
    assert Pruned(Buckets(front, window), last.second, window) == Grouped(Recent(Log(front), oldest));
    if last.Send? {
      var e := Event(last.second, last.bytes);
      RecentSnoc(Log(front), e, oldest);
      GroupedSnoc(Recent(Log(front), oldest), e);
    }
  }

  /** For nondecreasing seconds the deque is strictly increasing, has at most one entry per second of the
      window, and gives the same rate as filtering the whole log. */
  lemma WindowRefinesLog(ops: seq<Op>, window: nat)
    requires InOrder(ops) && ops != [] && window > 0
    ensures
      var now := ops[|ops| - 1].second;
      && StrictlyIncreasing(Buckets(ops, window))
      && |Buckets(ops, window)| <= window
      && RateOf(Buckets(ops, window), now, window) == LogRate(Log(ops), now, window)
  {
    var now := ops[|ops| - 1].second;
    var recent := Recent(Log(ops), Oldest(now, window));
    LogIsOrdered(ops);
    BucketsAreRecentLog(ops, window);
    RecentIsOrdered(Log(ops), Oldest(now, window));
    GroupedIsOrdered(recent);
    GroupedSum(recent);
    if recent != [] {
      assert recent[0] in recent && recent[|recent| - 1] in recent;
      SpreadBounds(Grouped(recent), |Grouped(recent)| - 1);
    }
  }

  lemma {:induction false} SpreadBounds(buckets: seq<Event>, i: nat)
    requires StrictlyIncreasing(buckets) && i < |buckets|
    ensures buckets[0].second + i <= buckets[i].second
  {
    if i > 0 {
      SpreadBounds(buckets, i - 1);
    }
  }

  // ---------------------------------------------------------------- what the rate measures

  predicate InWindow(e: Event, now: nat, window: nat) {
    now < e.second + window
  }

  /** All bytes sent within the window that ends now. */
  function WindowBytes(log: seq<Event>, now: nat, window: nat): nat {
    if log == [] then 0
    else
      var last := log[|log| - 1];
      WindowBytes(log[..|log| - 1], now, window) + (if InWindow(last, now, window) then last.bytes else 0)
  }

  lemma {:induction false} RecentBytes(log: seq<Event>, now: nat, window: nat)
    requires window > 0
    ensures TotalBytes(Recent(log, Oldest(now, window))) == WindowBytes(log, now, window)
  {
    if log != [] {
      var front, last := log[..|log| - 1], log[|log| - 1];
      RecentBytes(front, now, window);
      var before := Recent(front, Oldest(now, window));
      assert (before + [last])[..|before|] == before;
      assert before + [] == before;
    }
  }

  lemma {:induction false} RecentMembers(log: seq<Event>, now: nat, window: nat)
    requires window > 0
    ensures forall e :: e in Recent(log, Oldest(now, window)) <==> e in log && InWindow(e, now, window)
  {
    if log != [] {
      var front, last := log[..|log| - 1], log[|log| - 1];
      RecentMembers(front, now, window);
      assert forall e :: e in log <==> e in front || e == last by {
        assert log == front + [last];
      }
    }
  }

  lemma RecentIsInWindow(log: seq<Event>, now: nat, window: nat)
    requires window > 0
    ensures
      var recent := Recent(log, Oldest(now, window));
      && TotalBytes(recent) == WindowBytes(log, now, window)
      && forall e :: e in recent <==> e in log && InWindow(e, now, window)
  {
    RecentBytes(log, now, window);
    RecentMembers(log, now, window);
  }

  /** `bps` is the whole number of bits per second: eight times the bytes over the seconds. */
  predicate BitsPerSecond(bps: nat, bytes: nat, seconds: nat) {
    bps * seconds <= 8 * bytes < (bps + 1) * seconds
  }

  lemma BpsExactly(bytes: nat, observed: nat)
    requires observed > 0 && 8 * bytes <= U64_MAX
    ensures BitsPerSecond(Bps(bytes, observed), bytes, observed)
  {
    var bits, bps := 8 * bytes, Bps(bytes, observed);
    assert bps == bits / observed;
    assert bits == observed * bps + bits % observed;
    assert (bps + 1) * observed == observed * bps + observed && bps * observed == observed * bps;
  }

  ghost predicate EarliestIn(log: seq<Event>, e: Event, now: nat, window: nat) {
    e in log && InWindow(e, now, window) && forall f <- log :: InWindow(f, now, window) ==> e.second <= f.second
  }

  lemma FirstIsEarliest(log: seq<Event>, e: Event, now: nat, window: nat)
    requires Nondecreasing(log) && 0 < window && EarliestIn(log, e, now, window)
    ensures
      var recent := Recent(log, Oldest(now, window));
      recent != [] && recent[0].second == e.second
  {
    var recent := Recent(log, Oldest(now, window));
    RecentIsInWindow(log, now, window);
    RecentIsOrdered(log, Oldest(now, window));
    hide Recent, InWindow;
    assert e in recent;
    var i :| 0 <= i < |recent| && recent[i] == e;
    assert recent[0] in recent && recent[0].second <= recent[i].second;
  }

  /** Without bytes in the window the rate is nothing over no seconds.  Otherwise it is eight times the bytes of the
      window over the seconds since the first of them, the present one included. */
  lemma RateMeasuresTheLog(ops: seq<Op>, window: nat, first: Event)
    requires InOrder(ops) && ops != [] && 0 < window <= U64_MAX
    ensures
      var (log, now) := (Log(ops), ops[|ops| - 1].second);
      var (bps, observed) := RateOf(Buckets(ops, window), now, window);
      && ((forall e <- log :: !InWindow(e, now, window)) ==> (bps, observed) == (0, 0))
      && (EarliestIn(log, first, now, window) ==> observed == now + 1 - first.second > 0)
      && (EarliestIn(log, first, now, window) && 8 * WindowBytes(log, now, window) <= U64_MAX ==>
            BitsPerSecond(bps, WindowBytes(log, now, window), observed))
  {
    var log, now := Log(ops), ops[|ops| - 1].second;
    WindowRefinesLog(ops, window);
    LogIsOrdered(ops);
    RecentIsInWindow(log, now, window);
    if EarliestIn(log, first, now, window) {
      FirstIsEarliest(log, first, now, window);
      if 8 * WindowBytes(log, now, window) <= U64_MAX {
        BpsExactly(WindowBytes(log, now, window), now + 1 - first.second);
      }
    }
    hide RateOf, Buckets, InOrder, BitsPerSecond, Bps, Recent;
    if forall e <- log :: !InWindow(e, now, window) {
      NothingThere(Recent(log, Oldest(now, window)));
    }
  }

  lemma NothingThere(events: seq<Event>)
    ensures (forall e :: e !in events) ==> events == []
  {
    if events != [] {
      assert events[0] in events;
    }
  }
}
