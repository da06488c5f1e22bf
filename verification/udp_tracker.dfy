/** The bounded gap tracker of one UDP flow: unsigned 32-bit sequence numbers that wrap around. */
module UdpTracker {
  import opened Prelude

  const MODULUS: nat := 0x1_0000_0000
  const HALF: nat := 0x8000_0000

  // u32::wrapping_sub
  function WrapSub(a: nat, b: nat): (r: nat)
    ensures r < MODULUS
  {
    (a - b) % MODULUS
  }

  // u32::wrapping_add
  function WrapAdd(a: nat, b: nat): (r: nat)
    ensures r < MODULUS
  {
    (a + b) % MODULUS
  }

  datatype Tracker = Tracker(
    nextExpected: Option<nat>, missing: set<nat>, received: nat, highestSeen: Option<nat>, reordered: nat)

  const NEW_TRACKER: Tracker := Tracker(None, {}, 0, None, 0)

  /** The last `tracked` numbers before `sequence`. */
  function GapBefore(sequence: nat, tracked: nat): set<nat> {
    set j: nat | 0 < j <= tracked :: WrapSub(sequence, j)
  }

  function Highest(t: Tracker, sequence: nat): nat {
    if t.highestSeen.Some? && WrapSub(sequence, t.highestSeen.value) >= HALF then t.highestSeen.value else sequence
  }

  function Observe(t: Tracker, sequence: nat, cap: nat): Tracker {
    var seen := t.(received := t.received + 1, highestSeen := Some(Highest(t, sequence)));
    if t.nextExpected.None? then seen.(nextExpected := Some(WrapAdd(sequence, 1)))
    else
      var diff := WrapSub(sequence, t.nextExpected.value);
      if diff == 0 then seen.(nextExpected := Some(WrapAdd(sequence, 1)))
      else if diff < HALF then
        seen.(nextExpected := Some(WrapAdd(sequence, 1)), missing := GapBefore(sequence, Min(diff, cap)))
      else seen.(missing := t.missing - {sequence}, reordered := t.reordered + 1)
  }

  /** The update in place: a forward jump forgets the old gap and records the end of the new one. */
  method ObserveInPlace(t: Tracker, sequence: nat, cap: nat) returns (t': Tracker)
    ensures t' == Observe(t, sequence, cap)
  {
    t' := t.(received := t.received + 1);
    t' := t'.(highestSeen := Some(Highest(t, sequence)));
    if t.nextExpected.None? {
      return t'.(nextExpected := Some(WrapAdd(sequence, 1)));
    }
    var diff := WrapSub(sequence, t.nextExpected.value);
    if diff < HALF {
      if diff > 0 {
        var tracked := Min(diff, cap);
        var first := WrapSub(sequence, tracked);
        var missing: set<nat> := {};
        for offset := 0 to tracked
          invariant missing == set j: nat | tracked - offset < j <= tracked :: WrapSub(sequence, j)
        {
          OffsetFromFirst(sequence, tracked, offset);
          missing := missing + {WrapAdd(first, offset)};
        }
        t' := t'.(missing := missing);
      }
      t' := t'.(nextExpected := Some(WrapAdd(sequence, 1)));
    } else {
      t' := t'.(missing := t'.missing - {sequence}, reordered := t'.reordered + 1);
    }
  }

  lemma GapMembers(sequence: nat, tracked: nat, n: nat)
    requires sequence < MODULUS && tracked < MODULUS
    ensures n in GapBefore(sequence, tracked) <==> n < MODULUS && 1 <= (sequence - n) % MODULUS <= tracked
  {
    if n < MODULUS {
      var j := (sequence - n) % MODULUS;
      BackAndForth(sequence, n);
      assert 0 < j <= tracked ==> WrapSub(sequence, j) == n;
    }
    if n in GapBefore(sequence, tracked) {
      var i: nat :| 0 < i <= tracked && n == WrapSub(sequence, i);
      BackAndForth(sequence, i);
    }
  }

  lemma BackAndForth(a: nat, b: nat)
    requires a < MODULUS && b < MODULUS
    ensures (a - (a - b) % MODULUS) % MODULUS == b
  {}

  /** What one packet does.  With `ahead` numbers skipped, counted around the number space, the missing set becomes the
      last of them, as many as may be tracked; a number from behind is no longer missing and counts as reordered. */
  lemma ObserveExactly(t: Tracker, sequence: nat, cap: nat, n: nat)
    requires sequence < MODULUS && (t.nextExpected.Some? ==> t.nextExpected.value < MODULUS)
    ensures
      var t' := Observe(t, sequence, cap);
      var ahead := if t.nextExpected.Some? then (sequence - t.nextExpected.value) % MODULUS else 0;
      && t'.received == t.received + 1
      && t'.highestSeen == (if t.highestSeen.Some? && (sequence - t.highestSeen.value) % MODULUS >= HALF
                            then t.highestSeen else Some(sequence))
      && t'.nextExpected == (if ahead < HALF then Some((sequence + 1) % MODULUS) else t.nextExpected)
      && t'.reordered == t.reordered + (if ahead < HALF then 0 else 1)
      && (n in t'.missing <==>
            if ahead == 0 then n in t.missing
            else if ahead < HALF then n < MODULUS && 1 <= (sequence - n) % MODULUS <= Min(ahead, cap)
            else n in t.missing && n != sequence)
  {
    if t.nextExpected.Some? {
      GapMembers(sequence, Min(WrapSub(sequence, t.nextExpected.value), cap), n);
    }
    hide GapBefore;
  }

  lemma OffsetFromFirst(sequence: nat, tracked: nat, offset: nat)
    requires offset < tracked
    ensures WrapAdd(WrapSub(sequence, tracked), offset) == WrapSub(sequence, tracked - offset)
  {}

  // ---------------------------------------------------------------- a bounded set of missing numbers

  lemma {:induction false} GapIsBounded(sequence: nat, tracked: nat)
    ensures |GapBefore(sequence, tracked)| <= tracked
  {
    if tracked == 0 {
      assert GapBefore(sequence, 0) == {};
    } else {
      GapIsBounded(sequence, tracked - 1);
      assert GapBefore(sequence, tracked) == GapBefore(sequence, tracked - 1) + {WrapSub(sequence, tracked)};
    }
  }

  lemma ObserveIsBounded(t: Tracker, sequence: nat, cap: nat)
    requires |t.missing| <= cap
    ensures |Observe(t, sequence, cap).missing| <= cap
  {
    if t.nextExpected.Some? {
      GapIsBounded(sequence, Min(WrapSub(sequence, t.nextExpected.value), cap));
    }
  }

  function ObserveAll(t: Tracker, sequences: seq<nat>, cap: nat): Tracker {
    if sequences == [] then t
    else Observe(ObserveAll(t, sequences[..|sequences| - 1], cap), sequences[|sequences| - 1], cap)
  }

  /** Whatever arrives, at most `cap` numbers are tracked as missing. */
  lemma {:induction false} MissingIsBounded(sequences: seq<nat>, cap: nat)
    ensures |ObserveAll(NEW_TRACKER, sequences, cap).missing| <= cap
  {
    if sequences != [] {
      MissingIsBounded(sequences[..|sequences| - 1], cap);
      ObserveIsBounded(ObserveAll(NEW_TRACKER, sequences[..|sequences| - 1], cap), sequences[|sequences| - 1], cap);
    }
  }

  // ---------------------------------------------------------------- what is missing

  predicate OpensGap(t: Tracker, sequence: nat) {
    t.nextExpected.Some? && 0 < WrapSub(sequence, t.nextExpected.value) < HALF
  }

  predicate InOrder(t: Tracker, sequence: nat) {
    t.nextExpected.Some? && WrapSub(sequence, t.nextExpected.value) == 0
  }

  /** No later arrival opens another gap. */
  predicate NoNewGap(t: Tracker, later: seq<nat>, cap: nat) {
    forall i :: 0 <= i < |later| ==> !OpensGap(ObserveAll(t, later[..i], cap), later[i])
  }

  /** How far the expected number moved while no gap opened. */
  function Advance(t: Tracker, later: seq<nat>, cap: nat): nat {
    if later == [] then 0
    else
      var front, last := later[..|later| - 1], later[|later| - 1];
      Advance(t, front, cap) + (if InOrder(ObserveAll(t, front, cap), last) then 1 else 0)
  }

  /** One observation that opens no gap. */
  lemma ObserveWithoutGap(t: Tracker, n: nat, cap: nat)
    requires t.nextExpected.Some? && !OpensGap(t, n)
    ensures
      var t' := Observe(t, n, cap);
      && t'.nextExpected == (if InOrder(t, n) then Some(WrapAdd(n, 1)) else t.nextExpected)
      && t'.missing == (if InOrder(t, n) then t.missing else t.missing - {n})
  {
    hide GapBefore, Highest;
  }

  lemma PrefixHasNoGap(t: Tracker, later: seq<nat>, cap: nat)
    requires NoNewGap(t, later, cap) && later != []
    ensures NoNewGap(t, later[..|later| - 1], cap)
  {
    var front := later[..|later| - 1];
    forall i | 0 <= i < |front|
      ensures !OpensGap(ObserveAll(t, front[..i], cap), front[i])
    {
      assert front[..i] == later[..i];
      assert !OpensGap(ObserveAll(t, later[..i], cap), later[i]);
    }
  }

  /** The last of the later observations. */
  lemma LastObservation(t: Tracker, later: seq<nat>, cap: nat)
    requires NoNewGap(t, later, cap) && later != []
    ensures
      var front, last := later[..|later| - 1], later[|later| - 1];
      var before := ObserveAll(t, front, cap);
      && NoNewGap(t, front, cap)
      && !OpensGap(before, last)
      && ObserveAll(t, later, cap) == Observe(before, last, cap)
      && Advance(t, later, cap) == Advance(t, front, cap) + (if InOrder(before, last) then 1 else 0)
  {
    PrefixHasNoGap(t, later, cap);
    assert !OpensGap(ObserveAll(t, later[..|later| - 1], cap), later[|later| - 1]);
  }

  lemma ExpectedStep(before: Tracker, sequence: nat, ahead: nat, last: nat, cap: nat)
    requires before.nextExpected == Some(WrapAdd(sequence, ahead)) && !OpensGap(before, last) && last < MODULUS
    ensures Observe(before, last, cap).nextExpected
         == Some(WrapAdd(sequence, ahead + (if InOrder(before, last) then 1 else 0)))
  {
    hide WrapSub, WrapAdd, Observe, OpensGap;
    ObserveWithoutGap(before, last, cap);
    NextInOrder(last, sequence, ahead);
  }

  lemma {:induction false} ExpectedAfterAdvance(t: Tracker, sequence: nat, later: seq<nat>, cap: nat)
    requires t.nextExpected == Some(WrapAdd(sequence, 1)) && NoNewGap(t, later, cap) && AllU32(later)
    ensures ObserveAll(t, later, cap).nextExpected == Some(WrapAdd(sequence, 1 + Advance(t, later, cap)))
  {
    if later != [] {
      var front, last := later[..|later| - 1], later[|later| - 1];
      LastObservation(t, later, cap);
      U32Parts(later);
      hide WrapSub, WrapAdd, Observe, OpensGap, InOrder, ObserveAll, Advance, NoNewGap, AllU32;
      ExpectedAfterAdvance(t, sequence, front, cap);
      ExpectedStep(ObserveAll(t, front, cap), sequence, 1 + Advance(t, front, cap), last, cap);
    }
  }

  predicate AllU32(sequences: seq<nat>) {
    forall i :: 0 <= i < |sequences| ==> sequences[i] < MODULUS
  }

  lemma U32Parts(later: seq<nat>)
    requires AllU32(later) && later != []
    ensures AllU32(later[..|later| - 1]) && later[|later| - 1] < MODULUS
  {}

  lemma NextInOrder(n: nat, sequence: nat, ahead: nat)
    requires n < MODULUS
    ensures WrapSub(n, WrapAdd(sequence, ahead)) == 0 ==> n == WrapAdd(sequence, ahead)
    ensures n == WrapAdd(sequence, ahead) ==> WrapAdd(n, 1) == WrapAdd(sequence, ahead + 1)
  {
    hide WrapSub, WrapAdd;
    SubtractSmall(n, WrapAdd(sequence, ahead));
    AddOne(sequence, ahead);
  }

  lemma SubtractSmall(a: nat, b: nat)
    requires a < MODULUS && b < MODULUS
    ensures WrapSub(a, b) == if a >= b then a - b else a - b + MODULUS
  {}

  lemma AddOne(sequence: nat, ahead: nat)
    ensures WrapAdd(WrapAdd(sequence, ahead), 1) == WrapAdd(sequence, ahead + 1)
  {}

  /** Numbers after the gap cannot be numbers of the gap until the counter has gone round. */
  lemma AheadIsNotInGap(sequence: nat, ahead: nat, j: nat)
    requires 0 < j && ahead + j < MODULUS
    ensures WrapAdd(sequence, ahead) != WrapSub(sequence, j)
  {
    var s := sequence % MODULUS;
    assert WrapAdd(sequence, ahead) == (s + ahead) % MODULUS;
    assert WrapSub(sequence, j) == (s - j) % MODULUS;
  }

  lemma NotInGap(sequence: nat, ahead: nat, tracked: nat)
    requires ahead + tracked < MODULUS
    ensures WrapAdd(sequence, ahead) !in GapBefore(sequence, tracked)
  {
    forall j: nat | 0 < j <= tracked
      ensures WrapAdd(sequence, ahead) != WrapSub(sequence, j)
    {
      AheadIsNotInGap(sequence, ahead, j);
    }
  }

  lemma MissingStep(before: Tracker, sequence: nat, ahead: nat, tracked: nat, last: nat, cap: nat)
    requires before.nextExpected == Some(WrapAdd(sequence, ahead)) && !OpensGap(before, last) && last < MODULUS
    requires InOrder(before, last) ==> ahead + tracked < MODULUS
    requires before.missing <= GapBefore(sequence, tracked)
    ensures Observe(before, last, cap).missing == before.missing - {last}
  {
    hide WrapSub, WrapAdd, Observe, OpensGap, GapBefore;
    ObserveWithoutGap(before, last, cap);
    NextInOrder(last, sequence, ahead);
    if InOrder(before, last) {
      NotInGap(sequence, ahead, tracked);
      assert last !in before.missing;
    }
  }

  /** The numbers of the gap that have not been observed since. */
  function StillMissing(gap: set<nat>, later: seq<nat>): set<nat> {
    set n | n in gap && n !in later
  }

  lemma {:induction false} MissingSinceGap(t: Tracker, sequence: nat, tracked: nat, later: seq<nat>, cap: nat)
    requires t.nextExpected == Some(WrapAdd(sequence, 1)) && t.missing == GapBefore(sequence, tracked)
    requires NoNewGap(t, later, cap) && AllU32(later) && Advance(t, later, cap) + tracked < MODULUS
    ensures ObserveAll(t, later, cap).missing == StillMissing(GapBefore(sequence, tracked), later)
  {
    var gap := GapBefore(sequence, tracked);
    if later == [] {
      assert gap == StillMissing(gap, later);
    } else {
      var front, last := later[..|later| - 1], later[|later| - 1];
      LastObservation(t, later, cap);
      U32Parts(later);
      GapWithout(gap, later);
      hide GapBefore, WrapSub, WrapAdd, Observe, OpensGap, InOrder, ObserveAll, Advance, NoNewGap, StillMissing, AllU32;
      MissingSinceGap(t, sequence, tracked, front, cap);
      ExpectedAfterAdvance(t, sequence, front, cap);
      MissingStep(ObserveAll(t, front, cap), sequence, 1 + Advance(t, front, cap), tracked, last, cap);
    }
  }

  /** After a gap opens, and until another does, the missing numbers are exactly the last `cap` numbers of
      the gap that have not been observed since. */
  lemma MissingIsExact(t: Tracker, sequence: nat, later: seq<nat>, cap: nat)
    requires OpensGap(t, sequence) && NoNewGap(Observe(t, sequence, cap), later, cap) && AllU32(later)
    requires Advance(Observe(t, sequence, cap), later, cap) + Min(WrapSub(sequence, t.nextExpected.value), cap) < MODULUS
    ensures ObserveAll(Observe(t, sequence, cap), later, cap).missing
         == StillMissing(GapBefore(sequence, Min(WrapSub(sequence, t.nextExpected.value), cap)), later)
  {
    hide Observe, WrapSub, WrapAdd, GapBefore, NoNewGap, Advance, ObserveAll, StillMissing;
    OpensAtNext(t, sequence, cap);
    MissingSinceGap(Observe(t, sequence, cap), sequence, Min(WrapSub(sequence, t.nextExpected.value), cap), later, cap);
  }

  lemma GapWithout(gap: set<nat>, later: seq<nat>)
    requires later != []
    ensures StillMissing(gap, later) == StillMissing(gap, later[..|later| - 1]) - {later[|later| - 1]}
    ensures StillMissing(gap, later[..|later| - 1]) <= gap
  {
    assert later == later[..|later| - 1] + [later[|later| - 1]];
    assert forall n :: n in later <==> n in later[..|later| - 1] || n == later[|later| - 1];
  }

  lemma OpensAtNext(t: Tracker, sequence: nat, cap: nat)
    requires OpensGap(t, sequence)
    ensures Observe(t, sequence, cap).nextExpected == Some(WrapAdd(sequence, 1))
    ensures Observe(t, sequence, cap).missing == GapBefore(sequence, Min(WrapSub(sequence, t.nextExpected.value), cap))
  {}

  /** A forward jump forgets every older gap. */
  lemma NewGapForgetsOld(t: Tracker, sequence: nat, cap: nat)
    requires OpensGap(t, sequence)
    ensures forall n <- Observe(t, sequence, cap).missing ::
              exists j: nat :: 0 < j <= WrapSub(sequence, t.nextExpected.value) && n == WrapSub(sequence, j)
  {}

  /** The expected number stays one past the highest, except after a jump of exactly half the number space. */
  lemma ExpectedFollowsHighest(t: Tracker, sequence: nat, cap: nat)
    requires t.highestSeen.Some? && t.highestSeen.value < MODULUS && sequence < MODULUS
    requires t.nextExpected == Some(WrapAdd(t.highestSeen.value, 1))
    ensures
      var t' := Observe(t, sequence, cap);
      t'.nextExpected == Some(WrapAdd(t'.highestSeen.value, 1)) <==> WrapSub(sequence, t.highestSeen.value) != HALF
  {
    hide WrapSub, WrapAdd, GapBefore;
    var h := t.highestSeen.value;
    NextSmall(h);
    NextSmall(sequence);
    SubtractSmall(sequence, h);
    SubtractSmall(sequence, WrapAdd(h, 1));
  }

  lemma NextSmall(a: nat)
    requires a < MODULUS
    ensures WrapAdd(a, 1) == if a == MODULUS - 1 then 0 else a + 1
  {}
}
