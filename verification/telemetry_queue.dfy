/** The telemetry send queue: at most two blocks, newest wins.  Its byte budget can never be what evicts. */
module TelemetryQueue {
  import opened Collections
  import opened Prelude
  import opened TelemetryEnvelopes

  const MAX_BLOCKS: nat := 2
  const MAX_BYTES: nat := 64 * 1024

  datatype Outcome = Queued | Replaced(blocks: nat)

  function ByteCount(blocks: seq<Bytes>): nat {
    if blocks == [] then 0 else |blocks[0]| + ByteCount(blocks[1..])
  }

  lemma {:induction false} ByteCountSnoc(blocks: seq<Bytes>, last: Bytes)
    ensures ByteCount(blocks + [last]) == ByteCount(blocks) + |last|
  {
    if blocks != [] {
      assert (blocks + [last])[1..] == blocks[1..] + [last];
      ByteCountSnoc(blocks[1..], last);
    }
  }

  ghost predicate QueueOk(blocks: seq<Bytes>) {
    |blocks| <= MAX_BLOCKS && forall b <- blocks :: |b| <= MAX_ENVELOPE_BYTES
  }

  /** With room for a block, its bytes fit as well. */
  lemma BytesFit(blocks: seq<Bytes>, envelope: Bytes)
    requires QueueOk(blocks) && |blocks| < MAX_BLOCKS && |envelope| <= MAX_ENVELOPE_BYTES
    ensures ByteCount(blocks) + |envelope| <= MAX_BYTES
  {
    if blocks != [] {
      assert blocks[1..] == [];
    }
  }

  /** The queue after a push: the oldest block makes room when two are waiting. */
  function Pushed(blocks: seq<Bytes>, envelope: Bytes): seq<Bytes> {
    (if |blocks| >= MAX_BLOCKS then blocks[1..] else blocks) + [envelope]
  }

  /** That is the newest two of the blocks waiting and the new one. */
  lemma PushedIsLatest(blocks: seq<Bytes>, envelope: Bytes)
    requires QueueOk(blocks)
    ensures Pushed(blocks, envelope) == LastOf(blocks + [envelope], 2)
  {}

  class LatestTelemetryQueue {
    var blocks: seq<Bytes>
    var bytes: nat

    ghost predicate Valid()
      reads this
    {
      QueueOk(blocks) && bytes == ByteCount(blocks)
    }

    constructor ()
      ensures Valid() && blocks == []
    {
      blocks, bytes := [], 0;
    }

    method Push(envelope: Bytes) returns (r: Result<Outcome, Error>)
      requires Valid()
      modifies this
      ensures Valid()
      ensures |envelope| > MAX_ENVELOPE_BYTES ==> r == Err(EnvelopeTooLarge(|envelope|)) && blocks == old(blocks)
      ensures |envelope| <= MAX_ENVELOPE_BYTES ==>
                && blocks == Pushed(old(blocks), envelope)
                && r == Ok(if |old(blocks)| == MAX_BLOCKS then Replaced(1) else Queued)
    {
      if |envelope| > MAX_ENVELOPE_BYTES {
        return Err(EnvelopeTooLarge(|envelope|));
      }
      var replaced := 0;
      while (|blocks| >= MAX_BLOCKS || bytes + |envelope| > MAX_BYTES) && blocks != []
        invariant Valid()
        invariant (replaced == 0 && blocks == old(blocks))
               || (replaced == 1 && |old(blocks)| == MAX_BLOCKS && blocks == old(blocks)[1..])
        decreases |blocks|
      {
        if |blocks| < MAX_BLOCKS {
          BytesFit(blocks, envelope);
        }
        bytes := SatSub(bytes, |blocks[0]|);
        blocks := blocks[1..];
        replaced := replaced + 1;
      }
      ByteCountSnoc(blocks, envelope);
      bytes := bytes + |envelope|;
      blocks := blocks + [envelope];
      return Ok(if replaced == 0 then Queued else Replaced(replaced));
    }

    method TryPop() returns (r: Option<Bytes>)
      requires Valid()
      modifies this
      ensures Valid()
      ensures old(blocks) == [] ==> r == None && blocks == []
      ensures old(blocks) != [] ==> r == Some(old(blocks)[0]) && blocks == old(blocks)[1..]
    {
      if blocks == [] {
        return None;
      }
      r := Some(blocks[0]);
      bytes := SatSub(bytes, |blocks[0]|);
      blocks := blocks[1..];
    }
  }

  // ---------------------------------------------------------------- any sequence of calls

  datatype Op = Push(envelope: Bytes) | Pop

  function Contents(ops: seq<Op>): seq<Bytes> {
    if ops == [] then []
    else
      var before := Contents(ops[..|ops| - 1]);
      match ops[|ops| - 1]
      case Push(e) => Pushed(before, e)
      case Pop => if before == [] then [] else before[1..]
  }

  /** Everything pushed so far. */
  function Log(ops: seq<Op>): seq<Bytes> {
    if ops == [] then []
    else
      match ops[|ops| - 1]
      case Push(e) => Log(ops[..|ops| - 1]) + [e]
      case Pop => Log(ops[..|ops| - 1])
  }

  /** What waits is always the newest end of the log: at most two, with nothing skipped in between. */
  lemma {:induction false} HoldsTheLatest(ops: seq<Op>)
    ensures |Contents(ops)| <= MAX_BLOCKS && |Contents(ops)| <= |Log(ops)|
    ensures Contents(ops) == Log(ops)[|Log(ops)| - |Contents(ops)|..]
  {
    if ops != [] {
      HoldsTheLatest(ops[..|ops| - 1]);
    }
  }

  /** The position in the log of the block that is delivered next. */
  function Head(ops: seq<Op>): nat {
    HoldsTheLatest(ops);
    |Log(ops)| - |Contents(ops)|
  }

  predicate Delivers(ops: seq<Op>, i: nat) {
    i < |ops| && ops[i].Pop? && Contents(ops[..i]) != []
  }

  lemma {:induction false} HeadAdvances(ops: seq<Op>, i: nat, j: nat)
    requires i <= j <= |ops|
    ensures Head(ops[..i]) <= Head(ops[..j])
    ensures i < j && Delivers(ops, i) ==> Head(ops[..i]) < Head(ops[..j])
  {
    if i < j {
      HeadAdvances(ops, i, j - 1);
      assert ops[..j][..j - 1] == ops[..j - 1];
    }
  }

  /** Blocks come out in the order they went in, none twice. */
  lemma DeliveredInOrder(ops: seq<Op>, i: nat, j: nat)
    requires i < j && Delivers(ops, i) && Delivers(ops, j)
    ensures Head(ops[..i]) < Head(ops[..j]) < |Log(ops[..j])|
    ensures Contents(ops[..j])[0] == Log(ops[..j])[Head(ops[..j])]
  {
    HeadAdvances(ops, i, j);
    HoldsTheLatest(ops[..j]);
  }
}
