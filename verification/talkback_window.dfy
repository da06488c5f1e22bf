/** The per-publisher replay window: the highest sequence admitted so far and one bit for each of the 128
    numbers ending there.  The bit operations are proved to be those of a set of admitted sequences. */
module TalkbackWindow {
  import opened Prelude

  const SEQUENCE_WINDOW_BITS: nat := 128

  /** `highest` is an unsigned 64-bit number; no operation of the window exceeds its arguments. */
  datatype SequenceWindow = SequenceWindow(highest: nat, seen: bv128)

  // ---------------------------------------------------------------- bits

  /** `x << k`, one place at a time. */
  function ShiftLeft(x: bv128, k: nat): bv128 {
    if k == 0 then x else ShiftOnce(ShiftLeft(x, k - 1))
  }

  function ShiftOnce(x: bv128): bv128 {
    x << 1
  }

  function Width(d: nat): bv7
    requires d < SEQUENCE_WINDOW_BITS
  {
    if d == 0 then 0 else Width(d - 1) + 1
  }

  function Mask(b: bv7): bv128 {
    (1 as bv128) << b
  }

  /** The bit for the number `d` below the highest: `1 << d`. */
  function Bit(d: nat): bv128
    requires d < SEQUENCE_WINDOW_BITS
  {
    Mask(Width(d))
  }

  function WithBit(x: bv128, d: nat): bv128
    requires d < SEQUENCE_WINDOW_BITS
  {
    Either(x, Bit(d))
  }

  function Either(x: bv128, y: bv128): bv128 {
    x | y
  }

  predicate Meets(x: bv128, y: bv128) {
    x & y != 0
  }

  predicate HasBit(x: bv128, d: nat)
    requires d < SEQUENCE_WINDOW_BITS
  {
    Meets(x, Bit(d))
  }

  lemma NextWidth(b: bv7)
    requires b < 127
    ensures (b + 1) as nat == b as nat + 1
  {}

  lemma {:induction false} WidthIs(d: nat)
    requires d < SEQUENCE_WINDOW_BITS
    ensures Width(d) as nat == d
  {
    if d > 0 {
      WidthIs(d - 1);
      assert Width(d - 1) != 127;
      NextWidth(Width(d - 1));
    }
  }

  lemma NextBitOf(y: bv128, b: bv7)
    requires b < 127
    ensures Meets(ShiftOnce(y), Mask(b + 1)) <==> Meets(y, Mask(b))
  {
    assert Mask(b + 1) == ShiftOnce(Mask(b));
    assert Mask(b) & 0x8000_0000_0000_0000_0000_0000_0000_0000 == 0;
    ShiftedMeet(y, Mask(b));
  }

  lemma ShiftedMeet(y: bv128, m: bv128)
    requires m & 0x8000_0000_0000_0000_0000_0000_0000_0000 == 0
    ensures Meets(ShiftOnce(y), ShiftOnce(m)) <==> Meets(y, m)
  {}

  lemma LowestBitOf(y: bv128)
    ensures !Meets(ShiftOnce(y), Mask(0))
  {}

  lemma ShiftOnceBits(y: bv128, d: nat)
    requires d < SEQUENCE_WINDOW_BITS
    ensures HasBit(ShiftOnce(y), d) <==> d > 0 && HasBit(y, d - 1)
  {
    hide Mask, ShiftOnce, Meets;
    if d > 0 {
      WidthIs(d - 1);
      assert Width(d - 1) != 127;
      NextBitOf(y, Width(d - 1));
    } else {
      LowestBitOf(y);
    }
  }

  lemma {:induction false} ShiftedBits(x: bv128, k: nat, d: nat)
    requires d < SEQUENCE_WINDOW_BITS
    ensures HasBit(ShiftLeft(x, k), d) <==> k <= d && HasBit(x, d - k)
  {
    hide HasBit, ShiftOnce;
    if k > 0 {
      ShiftOnceBits(ShiftLeft(x, k - 1), d);
      if d > 0 {
        ShiftedBits(x, k - 1, d - 1);
      }
    }
  }

  lemma {:induction false} OneBit(k: nat, d: nat)
    requires k < SEQUENCE_WINDOW_BITS && d < SEQUENCE_WINDOW_BITS
    ensures HasBit(Bit(k), d) <==> d == k
  {
    hide Mask, Meets;
    WidthIs(k);
    WidthIs(d);
    DifferentBits(Width(k), Width(d));
  }

  lemma DifferentBits(a: bv7, b: bv7)
    ensures Meets(Mask(a), Mask(b)) <==> a == b
  {}

  lemma LeftMeets(x: bv128, y: bv128, z: bv128)
    requires Meets(x, z)
    ensures Meets(Either(x, y), z)
  {}

  lemma RightMeets(x: bv128, y: bv128, z: bv128)
    requires Meets(y, z)
    ensures Meets(Either(x, y), z)
  {}

  lemma NeitherMeets(x: bv128, y: bv128, z: bv128)
    requires !Meets(x, z) && !Meets(y, z)
    ensures !Meets(Either(x, y), z)
  {}

  lemma Union(x: bv128, y: bv128, z: bv128)
    ensures Meets(Either(x, y), z) <==> Meets(x, z) || Meets(y, z)
  {
    hide Meets, Either;
    if Meets(x, z) {
      LeftMeets(x, y, z);
    } else if Meets(y, z) {
      RightMeets(x, y, z);
    } else {
      NeitherMeets(x, y, z);
    }
  }

  lemma WithBitBits(x: bv128, k: nat, d: nat)
    requires k < SEQUENCE_WINDOW_BITS && d < SEQUENCE_WINDOW_BITS
    ensures HasBit(WithBit(x, k), d) <==> d == k || HasBit(x, d)
  {
    hide Bit, Meets, Either;
    OneBit(k, d);
    Union(x, Bit(k), Bit(d));
  }

  // ---------------------------------------------------------------- the window

  /** Only bit 0 is set: `1`. */
  function First(sequence: nat): SequenceWindow {
    SequenceWindow(sequence, Bit(0))
  }

  function AdmitSequence(w: SequenceWindow, sequence: nat): (bool, SequenceWindow) {
    if sequence > w.highest then
      var shift := sequence - w.highest;
      (true, SequenceWindow(sequence, if shift >= SEQUENCE_WINDOW_BITS then Bit(0) else WithBit(ShiftLeft(w.seen, shift), 0)))
    else
      var distance := w.highest - sequence;
      if distance >= SEQUENCE_WINDOW_BITS then (false, w)
      else if HasBit(w.seen, distance) then (false, w)
      else (true, w.(seen := WithBit(w.seen, distance)))
  }

  /** The in-place update of one window. */
  method Admit(w: SequenceWindow, sequence: nat) returns (admitted: bool, next: SequenceWindow)
    ensures (admitted, next) == AdmitSequence(w, sequence)
  {
    hide ShiftLeft, Bit, WithBit, HasBit;
    next := w;
    if sequence > next.highest {
      var shift := sequence - next.highest;
      next := next.(seen := if shift >= SEQUENCE_WINDOW_BITS then Bit(0) else WithBit(ShiftLeft(next.seen, shift), 0));
      next := next.(highest := sequence);
      return true, next;
    }
    var distance := next.highest - sequence;
    if distance >= SEQUENCE_WINDOW_BITS {
      return false, next;
    }
    if HasBit(next.seen, distance) {
      return false, next;
    }
    next := next.(seen := WithBit(next.seen, distance));
    return true, next;
  }

  predicate InWindow(w: SequenceWindow, s: nat) {
    s <= w.highest && w.highest - s < SEQUENCE_WINDOW_BITS
  }

  predicate Remembers(w: SequenceWindow, s: nat) {
    InWindow(w, s) && HasBit(w.seen, w.highest - s)
  }

  /** Too old, or already admitted: never to be admitted again. */
  predicate Spent(w: SequenceWindow, s: nat) {
    s <= w.highest && (InWindow(w, s) ==> Remembers(w, s))
  }

  lemma FirstRemembers(sequence: nat, t: nat)
    ensures Remembers(First(sequence), t) <==> t == sequence
  {
    hide HasBit, Bit;
    if InWindow(First(sequence), t) {
      OneBit(0, sequence - t);
    }
  }

  /** The bitmap refines a set: admitting adds exactly the sequence and forgets exactly what slides out. */
  lemma AdmitRemembers(w: SequenceWindow, s: nat, t: nat)
    ensures
      var (admitted, next) := AdmitSequence(w, s);
      && (admitted <==> !Spent(w, s))
      && next.highest == Max(s, w.highest)
      && (admitted ==> (Remembers(next, t) <==> t == s || (Remembers(w, t) && InWindow(next, t))))
      && (!admitted ==> next == w)
  {
    hide HasBit, ShiftLeft, Bit, WithBit;
    var (admitted, next) := AdmitSequence(w, s);
    if s > w.highest {
      if InWindow(next, t) {
        WithBitBits(ShiftLeft(w.seen, s - w.highest), 0, s - t);
        ShiftedBits(w.seen, s - w.highest, s - t);
        OneBit(0, s - t);
      }
    } else if admitted && InWindow(w, t) {
      WithBitBits(w.seen, w.highest - s, w.highest - t);
    }
  }

  /** What is spent stays spent. */
  lemma SpentForever(w: SequenceWindow, s: nat, t: nat)
    requires Spent(w, t)
    ensures Spent(AdmitSequence(w, s).1, t)
  {
    hide AdmitSequence, HasBit, Bit;
    AdmitRemembers(w, s, t);
  }

  lemma AdmittedIsSpent(w: SequenceWindow, s: nat)
    ensures Spent(AdmitSequence(w, s).1, s)
  {
    hide AdmitSequence, HasBit, Bit;
    AdmitRemembers(w, s, s);
  }

  // ---------------------------------------------------------------- any sequence of calls

  /** One call; the first call for a publisher creates the window. */
  function AdmitNext(w: Option<SequenceWindow>, s: nat): (bool, SequenceWindow) {
    match w
    case None => (true, First(s))
    case Some(window) => AdmitSequence(window, s)
  }

  function WindowAfter(calls: seq<nat>): Option<SequenceWindow> {
    if calls == [] then None else Some(AdmitNext(WindowAfter(calls[..|calls| - 1]), calls[|calls| - 1]).1)
  }

  /** Whether call number `i` returned true. */
  predicate AdmittedAt(calls: seq<nat>, i: nat)
    requires i < |calls|
  {
    AdmitNext(WindowAfter(calls[..i]), calls[i]).0
  }

  ghost predicate Admitted(calls: seq<nat>, s: nat) {
    exists i :: 0 <= i < |calls| && calls[i] == s && AdmittedAt(calls, i)
  }

  ghost predicate HighestAdmitted(calls: seq<nat>, h: nat) {
    Admitted(calls, h) && forall s: nat :: Admitted(calls, s) ==> s <= h
  }

  lemma AdmittedSnoc(calls: seq<nat>, last: nat, s: nat)
    ensures Admitted(calls + [last], s) <==> Admitted(calls, s) || (s == last && AdmitNext(WindowAfter(calls), last).0)
  {
    var all := calls + [last];
    assert all[..|calls|] == calls;
    forall i | 0 <= i < |calls|
      ensures all[..i] == calls[..i] && AdmittedAt(all, i) == AdmittedAt(calls, i)
    {
      assert all[..i] == calls[..i];
    }
    if Admitted(calls, s) {
      var i :| 0 <= i < |calls| && calls[i] == s && AdmittedAt(calls, i);
      assert all[i] == s && AdmittedAt(all, i);
    }
    if s == last && AdmitNext(WindowAfter(calls), last).0 {
      assert all[|calls|] == s && AdmittedAt(all, |calls|);
    }
  }

  /** The window is exactly the set of admitted sequences, seen through the last 128 numbers. */
  lemma {:induction false} WindowRefinesSet(calls: seq<nat>)
    requires calls != []
    ensures HighestAdmitted(calls, WindowAfter(calls).value.highest)
    ensures forall s: nat :: Remembers(WindowAfter(calls).value, s)
                  <==> Admitted(calls, s) && InWindow(WindowAfter(calls).value, s)
  {
    hide AdmitSequence, HasBit, Bit, Admitted;
    var front, last := calls[..|calls| - 1], calls[|calls| - 1];
    assert calls == front + [last];
    var w := WindowAfter(calls).value;
    if front == [] {
      assert forall s: nat :: !Admitted(front, s) by { NothingAdmitted(); }
      AdmittedSnoc(front, last, last);
      forall s: nat
        ensures Admitted(calls, s) <==> s == last
        ensures Remembers(w, s) <==> s == last
      {
        AdmittedSnoc(front, last, s);
        FirstRemembers(last, s);
      }
    } else {
      WindowRefinesSet(front);
      var before := WindowAfter(front).value;
      AdmitRemembers(before, last, last);
      AdmittedSnoc(front, last, w.highest);
      forall s: nat
        ensures Admitted(calls, s) ==> s <= w.highest
        ensures Remembers(w, s) <==> Admitted(calls, s) && InWindow(w, s)
      {
        AdmittedSnoc(front, last, s);
        AdmitRemembers(before, last, s);
      }
    }
  }

  lemma NothingAdmitted()
    ensures forall s: nat :: !Admitted([], s)
  {}

  /** After any sequence of calls, a sequence is admitted iff it exceeds the highest admitted so far or is
      within 128 of it and has not been admitted. */
  lemma AdmitExactly(calls: seq<nat>, h: nat, s: nat)
    requires HighestAdmitted(calls, h)
    ensures AdmitNext(WindowAfter(calls), s).0
       <==> s > h || (h - s < SEQUENCE_WINDOW_BITS && !Admitted(calls, s))
  {
    assert calls != [];
    hide AdmitSequence, HasBit, Bit, Admitted;
    WindowRefinesSet(calls);
    var w := WindowAfter(calls).value;
    assert w.highest == h;
    AdmitRemembers(w, s, s);
  }

  /** No number is ever admitted twice. */
  lemma AdmittedOnce(calls: seq<nat>, i: nat, j: nat)
    requires i < j < |calls| && AdmittedAt(calls, i) && AdmittedAt(calls, j)
    ensures calls[i] != calls[j]
  {
    hide AdmitSequence, HasBit, Bit;
    var before := calls[..j];
    assert before[..i] == calls[..i];
    assert AdmittedAt(before, i) && Admitted(before, before[i]);
    WindowRefinesSet(before);
    AdmitExactly(before, WindowAfter(before).value.highest, calls[j]);
  }
}
