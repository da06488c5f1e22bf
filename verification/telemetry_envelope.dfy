/** The telemetry envelope: a 48-byte little-endian header, the node id and the payload.  The checksum and the
    UTF-8 test are parameters. */
module TelemetryEnvelopes {
  import opened Prelude

  type Byte = n: nat | n < 256

  type Bytes = seq<Byte>

  const MAGIC: Bytes := [0x4E, 0x54, 0x46, 0x31]
  const VERSION: Byte := 1
  const HEADER_LEN: nat := 48
  const MAX_ENVELOPE_BYTES: nat := 32 * 1024
  const MAX_NODE_ID_BYTES: nat := 128
  const U32_LIMIT: nat := 0x1_0000_0000
  const U64_LIMIT: nat := 0x1_0000_0000_0000_0000

  /** `nodeId` is the UTF-8 form of the node's name. */
  datatype Envelope = Envelope(
    kind: Byte, bootId: nat, sequence: nat, capturedUnixMs: nat, periodMs: nat, nodeId: Bytes, payload: Bytes)

  datatype Error =
    | EnvelopeTooShort(actual: nat)
    | EnvelopeTooLarge(actual: nat)
    | InvalidMagic
    | UnsupportedVersion(version: Byte)
    | InvalidNodeIdLength(actual: nat)
    | InvalidNodeIdEncoding
    | EmptyPayload
    | LengthMismatch(declared: nat, actual: nat)
    | PayloadChecksumMismatch

  /** The external checksum and text encoding. */
  datatype Codec = Codec(crc: Bytes -> nat, utf8: Bytes -> bool) {
    ghost predicate Valid() {
      forall payload :: crc(payload) < U32_LIMIT
    }
  }

  /** The integer widths of the fields, and a text that is text. */
  ghost predicate Typed(codec: Codec, e: Envelope) {
    && e.bootId < U64_LIMIT && e.sequence < U64_LIMIT && e.capturedUnixMs < U64_LIMIT && e.periodMs < U32_LIMIT
    && codec.utf8(e.nodeId)
  }

  // ---------------------------------------------------------------- little-endian numbers

  function Pow256(k: nat): nat {
    if k == 0 then 1 else 256 * Pow256(k - 1)
  }

  /** `k` bytes, least significant first. */
  function Le(n: nat, k: nat): (b: Bytes)
    ensures |b| == k
  {
    if k == 0 then [] else [(n % 256) as Byte] + Le(n / 256, k - 1)
  }

  function FromLe(b: Bytes): nat {
    if b == [] then 0 else b[0] + 256 * FromLe(b[1..])
  }

  lemma {:induction false} FromLeOfLe(n: nat, k: nat)
    requires n < Pow256(k)
    ensures FromLe(Le(n, k)) == n
  {
    if k > 0 {
      assert n / 256 < Pow256(k - 1);
      FromLeOfLe(n / 256, k - 1);
      assert Le(n, k)[1..] == Le(n / 256, k - 1);
    }
  }

  lemma {:induction false} LeOfFromLe(b: Bytes)
    ensures Le(FromLe(b), |b|) == b && FromLe(b) < Pow256(|b|)
  {
    if b != [] {
      LeOfFromLe(b[1..]);
      assert FromLe(b) % 256 == b[0] && FromLe(b) / 256 == FromLe(b[1..]);
    }
  }

  lemma Widths()
    ensures Pow256(2) == 0x1_0000 && Pow256(4) == U32_LIMIT && Pow256(8) == U64_LIMIT
  {
    assert Pow256(1) == 256 && Pow256(2) == 0x1_0000 && Pow256(3) == 0x100_0000 && Pow256(4) == U32_LIMIT;
    assert Pow256(5) == 256 * U32_LIMIT && Pow256(6) == 0x1_0000 * U32_LIMIT && Pow256(7) == 0x100_0000 * U32_LIMIT;
  }

  /** Byte `i` of a little-endian number is its digit of weight 256 to the power `i`. */
  lemma {:induction false} LeDigit(n: nat, k: nat, i: nat)
    requires i < k
    ensures Pow256(i) > 0 && Le(n, k)[i] == n / Pow256(i) % 256
  {
    if i > 0 {
      LeDigit(n / 256, k - 1, i - 1);
      DivideTwice(n, Pow256(i - 1));
    }
  }

  lemma DivideTwice(n: nat, b: nat)
    requires b > 0
    ensures n / 256 / b == n / (256 * b)
  {
    var x, r := n / 256, n % 256;
    var q, s := x / b, x % b;
    assert x == b * q + s;
    assert (256 * b) * q == 256 * (b * q);
    QuotientIsUnique(n, 256 * b, q, 256 * s + r);
  }

  lemma QuotientIsUnique(n: nat, d: nat, q: nat, r: nat)
    requires d > 0 && n == d * q + r && r < d
    ensures n / d == q
  {
    var p := n / d;
    assert n == d * p + n % d;
    if p < q {
      OneMoreMultiple(d, p, q);
    } else if q < p {
      OneMoreMultiple(d, q, p);
    }
  }

  lemma OneMoreMultiple(d: nat, p: nat, q: nat)
    requires p < q
    ensures d * p + d <= d * q
  {
    var k: nat := q - p - 1;
    assert d * q == d * (p + 1 + k) == d * p + d + d * k;
  }

  // ---------------------------------------------------------------- fields in a row

  function Flatten(parts: seq<Bytes>): Bytes {
    if parts == [] then [] else Flatten(parts[..|parts| - 1]) + parts[|parts| - 1]
  }

  function Offset(parts: seq<Bytes>, i: nat): nat
    requires i <= |parts|
  {
    if i == 0 then 0 else Offset(parts, i - 1) + |parts[i - 1]|
  }

  lemma {:induction false} OffsetOfPrefix(parts: seq<Bytes>, more: Bytes, i: nat)
    requires i <= |parts|
    ensures Offset(parts + [more], i) == Offset(parts, i)
  {
    if i > 0 {
      OffsetOfPrefix(parts, more, i - 1);
    }
  }

  lemma {:induction false} FlattenLength(parts: seq<Bytes>)
    ensures |Flatten(parts)| == Offset(parts, |parts|)
  {
    if parts != [] {
      var front := parts[..|parts| - 1];
      FlattenLength(front);
      OffsetOfPrefix(front, parts[|parts| - 1], |front|);
      assert parts == front + [parts[|parts| - 1]];
    }
  }

  lemma {:induction false} OffsetsGrow(parts: seq<Bytes>, i: nat, j: nat)
    requires i <= j <= |parts|
    ensures Offset(parts, i) <= Offset(parts, j)
  {
    if i < j {
      OffsetsGrow(parts, i, j - 1);
    }
  }

  /** Each field can be read back at its offset. */
  lemma {:induction false} FieldAt(parts: seq<Bytes>, i: nat)
    requires i < |parts|
    ensures Offset(parts, i) + |parts[i]| <= |Flatten(parts)|
    ensures Flatten(parts)[Offset(parts, i)..Offset(parts, i) + |parts[i]|] == parts[i]
  {
    var front, last := parts[..|parts| - 1], parts[|parts| - 1];
    assert parts == front + [last];
    FlattenLength(front);
    OffsetOfPrefix(front, last, i);
    if i < |front| {
      FieldAt(front, i);
      assert Flatten(parts)[..|Flatten(front)|] == Flatten(front);
    }
  }

  /** Field `i` of the bytes, at its offset, is the one given. */
  predicate FieldReads(b: Bytes, parts: seq<Bytes>, i: nat)
    requires i < |parts|
  {
    var from, until := Offset(parts, i), Offset(parts, i + 1);
    from <= until <= |b| && b[from..until] == parts[i]
  }

  lemma ReadsInPrefix(front: seq<Bytes>, last: Bytes, b: Bytes, i: nat)
    requires i < |front| && FieldReads(b, front + [last], i)
    requires Offset(front, |front|) <= |b|
    ensures FieldReads(b[..Offset(front, |front|)], front, i)
  {
    hide Offset;
    OffsetOfPrefix(front, last, i);
    OffsetOfPrefix(front, last, i + 1);
    OffsetsGrow(front, i + 1, |front|);
    assert (front + [last])[i] == front[i];
    SliceOfPrefix(b, Offset(front, |front|), Offset(front, i), Offset(front, i + 1));
  }

  lemma SliceOfPrefix(b: Bytes, cut: nat, from: nat, until: nat)
    requires from <= until <= cut <= |b|
    ensures b[..cut][from..until] == b[from..until]
  {}

  /** Bytes whose fields all read the same are the same bytes. */
  lemma {:induction false} SameFields(parts: seq<Bytes>, b: Bytes)
    requires |b| == Offset(parts, |parts|) && forall i :: 0 <= i < |parts| ==> FieldReads(b, parts, i)
    ensures b == Flatten(parts)
  {
    if parts != [] {
      var front, last := parts[..|parts| - 1], parts[|parts| - 1];
      assert parts == front + [last];
      OffsetOfPrefix(front, last, |front|);
      assert FieldReads(b, parts, |front|);
      var cut := Offset(front, |front|);
      hide FieldReads;
      forall i | 0 <= i < |front|
        ensures FieldReads(b[..cut], front, i)
      {
        ReadsInPrefix(front, last, b, i);
      }
      SameFields(front, b[..cut]);
      assert b == b[..cut] + b[cut..];
    }
  }

  // ---------------------------------------------------------------- the envelope

  /** The fields in the order they are written; fields 3 and 9 are reserved. */
  function Fields(codec: Codec, e: Envelope): seq<Bytes> {
    [MAGIC, [VERSION], [e.kind], [0, 0],
     Le(e.bootId, 8), Le(e.sequence, 8), Le(e.capturedUnixMs, 8), Le(e.periodMs, 4),
     Le(|e.nodeId|, 2), [0, 0], Le(|e.payload|, 4), Le(codec.crc(e.payload), 4),
     e.nodeId, e.payload]
  }

  function Encode(codec: Codec, e: Envelope): Result<Bytes, Error> {
    if e.nodeId == [] || |e.nodeId| > MAX_NODE_ID_BYTES then Err(InvalidNodeIdLength(|e.nodeId|))
    else if e.payload == [] then Err(EmptyPayload)
    else if HEADER_LEN + |e.nodeId| + |e.payload| > MAX_ENVELOPE_BYTES then
      Err(EnvelopeTooLarge(HEADER_LEN + |e.nodeId| + |e.payload|))
    else Ok(Flatten(Fields(codec, e)))
  }

  function Decode(codec: Codec, b: Bytes): Result<Envelope, Error> {
    if |b| < HEADER_LEN then Err(EnvelopeTooShort(|b|))
    else if |b| > MAX_ENVELOPE_BYTES then Err(EnvelopeTooLarge(|b|))
    else if b[0..4] != MAGIC then Err(InvalidMagic)
    else if b[4] != VERSION then Err(UnsupportedVersion(b[4]))
    else
      var nodeIdLen := FromLe(b[36..38]);
      var payloadLen := FromLe(b[40..44]);
      if nodeIdLen == 0 || nodeIdLen > MAX_NODE_ID_BYTES then Err(InvalidNodeIdLength(nodeIdLen))
      else if HEADER_LEN + nodeIdLen + payloadLen != |b| then
        Err(LengthMismatch(HEADER_LEN + nodeIdLen + payloadLen, |b|))
      else if payloadLen == 0 then Err(EmptyPayload)
      else
        var nodeId, payload := b[48..48 + nodeIdLen], b[48 + nodeIdLen..];
        if !codec.utf8(nodeId) then Err(InvalidNodeIdEncoding)
        else if codec.crc(payload) != FromLe(b[44..48]) then Err(PayloadChecksumMismatch)
        else Ok(Envelope(b[5], FromLe(b[8..16]), FromLe(b[16..24]), FromLe(b[24..32]), FromLe(b[32..36]), nodeId, payload))
  }

  /** The writer appends field after field to one buffer. */
  method EncodeInto(codec: Codec, e: Envelope) returns (r: Result<Bytes, Error>)
    ensures r == Encode(codec, e)
  {
    if e.nodeId == [] || |e.nodeId| > MAX_NODE_ID_BYTES {
      return Err(InvalidNodeIdLength(|e.nodeId|));
    }
    if e.payload == [] {
      return Err(EmptyPayload);
    }
    var encodedLen := HEADER_LEN + |e.nodeId| + |e.payload|;
    if encodedLen > MAX_ENVELOPE_BYTES {
      return Err(EnvelopeTooLarge(encodedLen));
    }
    ghost var p := Fields(codec, e);
    hide Flatten;
    var encoded: Bytes := [];
    FlattenStep(p, 0);
    assert p[..0] == [];
    encoded := encoded + MAGIC;
    FlattenStep(p, 1);
    encoded := encoded + [VERSION];
    FlattenStep(p, 2);
    encoded := encoded + [e.kind];
    FlattenStep(p, 3);
    encoded := encoded + [0, 0];
    FlattenStep(p, 4);
    encoded := encoded + Le(e.bootId, 8);
    FlattenStep(p, 5);
    encoded := encoded + Le(e.sequence, 8);
    FlattenStep(p, 6);
    encoded := encoded + Le(e.capturedUnixMs, 8);
    FlattenStep(p, 7);
    encoded := encoded + Le(e.periodMs, 4);
    FlattenStep(p, 8);
    encoded := encoded + Le(|e.nodeId|, 2);
    FlattenStep(p, 9);
    encoded := encoded + [0, 0];
    FlattenStep(p, 10);
    encoded := encoded + Le(|e.payload|, 4);
    FlattenStep(p, 11);
    encoded := encoded + Le(codec.crc(e.payload), 4);
    FlattenStep(p, 12);
    encoded := encoded + e.nodeId;
    FlattenStep(p, 13);
    encoded := encoded + e.payload;
    assert p[..14] == p;
    return Ok(encoded);
  }

  lemma FlattenStep(p: seq<Bytes>, k: nat)
    requires k < |p|
    ensures Flatten(p[..k + 1]) == Flatten(p[..k]) + p[k]
    ensures Flatten([]) == []
  {
    assert p[..k + 1][..k] == p[..k];
  }

  // ---------------------------------------------------------------- layout

  lemma FieldOffsets(codec: Codec, e: Envelope)
    ensures
      var p := Fields(codec, e);
      && Offset(p, 0) == 0 && Offset(p, 1) == 4 && Offset(p, 2) == 5 && Offset(p, 3) == 6 && Offset(p, 4) == 8
      && Offset(p, 5) == 16 && Offset(p, 6) == 24 && Offset(p, 7) == 32 && Offset(p, 8) == 36 && Offset(p, 9) == 38
      && Offset(p, 10) == 40 && Offset(p, 11) == 44 && Offset(p, 12) == 48 && Offset(p, 13) == 48 + |e.nodeId|
      && Offset(p, 14) == 48 + |e.nodeId| + |e.payload|
  {
    var p := Fields(codec, e);
    hide Le;
    assert Offset(p, 0) == 0 && Offset(p, 1) == 4 && Offset(p, 2) == 5 && Offset(p, 3) == 6 && Offset(p, 4) == 8;
    assert Offset(p, 5) == 16 && Offset(p, 6) == 24 && Offset(p, 7) == 32 && Offset(p, 8) == 36 && Offset(p, 9) == 38;
    assert Offset(p, 10) == 40 && Offset(p, 11) == 44 && Offset(p, 12) == 48 && Offset(p, 13) == 48 + |e.nodeId|;
  }

  /** What every reader of an encoded envelope finds where. */
  lemma EncodedFields(codec: Codec, e: Envelope)
    ensures
      var b := Flatten(Fields(codec, e));
      && |b| == HEADER_LEN + |e.nodeId| + |e.payload|
      && b[0..4] == MAGIC && b[4] == VERSION && b[5] == e.kind && b[6..8] == [0, 0]
      && b[8..16] == Le(e.bootId, 8) && b[16..24] == Le(e.sequence, 8) && b[24..32] == Le(e.capturedUnixMs, 8)
      && b[32..36] == Le(e.periodMs, 4) && b[36..38] == Le(|e.nodeId|, 2) && b[38..40] == [0, 0]
      && b[40..44] == Le(|e.payload|, 4) && b[44..48] == Le(codec.crc(e.payload), 4)
      && b[48..48 + |e.nodeId|] == e.nodeId && b[48 + |e.nodeId|..] == e.payload
  {
    var p := Fields(codec, e);
    FieldOffsets(codec, e);
    FlattenLength(p);
    forall i | 0 <= i < |p|
      ensures Offset(p, i) + |p[i]| <= |Flatten(p)| && Flatten(p)[Offset(p, i)..Offset(p, i) + |p[i]|] == p[i]
    {
      FieldAt(p, i);
    }
    hide Flatten, Offset, Le;
    var b := Flatten(p);
    assert b[0..4] == p[0];
    assert b[4..5] == p[1] && b[5..6] == p[2];
    assert b[4] == b[4..5][0] && b[5] == b[5..6][0];
    assert b[6..8] == p[3] && b[8..16] == p[4] && b[16..24] == p[5] && b[24..32] == p[6] && b[32..36] == p[7];
    assert b[36..38] == p[8] && b[38..40] == p[9] && b[40..44] == p[10] && b[44..48] == p[11];
    assert b[48..48 + |e.nodeId|] == p[12] && b[48 + |e.nodeId|..48 + |e.nodeId| + |e.payload|] == p[13];
  }

  /** What is encoded, and why anything else is not. */
  lemma EncodeAnswers(codec: Codec, e: Envelope)
    ensures
      var r, named := Encode(codec, e), 1 <= |e.nodeId| <= MAX_NODE_ID_BYTES;
      && (r.Ok? <==> named && |e.payload| > 0 && HEADER_LEN + |e.nodeId| + |e.payload| <= MAX_ENVELOPE_BYTES)
      && (r == Err(InvalidNodeIdLength(|e.nodeId|)) <==> !named)
      && (r == Err(EmptyPayload) <==> named && |e.payload| == 0)
      && (r.Err? && r.error.EnvelopeTooLarge? ==> r.error.actual == HEADER_LEN + |e.nodeId| + |e.payload|)
  {
    hide Flatten, Fields;
  }

  /** The numbers of the header, byte by byte. */
  lemma EncodedBytes(codec: Codec, e: Envelope, i: nat)
    ensures Pow256(i) > 0
    ensures
      var b := Flatten(Fields(codec, e));
      && |b| >= HEADER_LEN
      && (i < 8 ==> && b[8 + i] == e.bootId / Pow256(i) % 256
                    && b[16 + i] == e.sequence / Pow256(i) % 256
                    && b[24 + i] == e.capturedUnixMs / Pow256(i) % 256)
      && (i < 4 ==> && b[32 + i] == e.periodMs / Pow256(i) % 256
                    && b[40 + i] == |e.payload| / Pow256(i) % 256
                    && b[44 + i] == codec.crc(e.payload) / Pow256(i) % 256)
      && (i < 2 ==> b[36 + i] == |e.nodeId| / Pow256(i) % 256)
  {
    EncodedFields(codec, e);
    LeDigit(0, i + 1, i);
    hide Flatten, Fields, Le, Pow256;
    var b := Flatten(Fields(codec, e));
    if i < 8 {
      LeDigit(e.bootId, 8, i);
      LeDigit(e.sequence, 8, i);
      LeDigit(e.capturedUnixMs, 8, i);
      assert b[8 + i] == b[8..16][i] && b[16 + i] == b[16..24][i] && b[24 + i] == b[24..32][i];
    }
    if i < 4 {
      LeDigit(e.periodMs, 4, i);
      LeDigit(|e.payload|, 4, i);
      LeDigit(codec.crc(e.payload), 4, i);
      assert b[32 + i] == b[32..36][i] && b[40 + i] == b[40..44][i] && b[44 + i] == b[44..48][i];
    }
    if i < 2 {
      LeDigit(|e.nodeId|, 2, i);
      assert b[36 + i] == b[36..38][i];
    }
  }

  // ---------------------------------------------------------------- the two inverses

  /** Decoding what was encoded gives the envelope back. */
  lemma DecodeOfEncode(codec: Codec, e: Envelope)
    requires codec.Valid() && Typed(codec, e) && Encode(codec, e).Ok?
    ensures Decode(codec, Encode(codec, e).value) == Ok(e)
  {
    EncodedFields(codec, e);
    Widths();
    FromLeOfLe(e.bootId, 8);
    FromLeOfLe(e.sequence, 8);
    FromLeOfLe(e.capturedUnixMs, 8);
    FromLeOfLe(e.periodMs, 4);
    FromLeOfLe(|e.nodeId|, 2);
    FromLeOfLe(|e.payload|, 4);
    FromLeOfLe(codec.crc(e.payload), 4);
    hide Le, FromLe, Flatten, Pow256;
  }

  /** The four reserved bytes are written as zero and never read. */
  function ZeroReserved(b: Bytes): Bytes
    requires |b| >= HEADER_LEN
  {
    b[6 := 0][7 := 0][38 := 0][39 := 0]
  }

  /** Encoding what was decoded gives the same bytes, but for the reserved ones. */
  lemma EncodeOfDecode(codec: Codec, b: Bytes)
    requires Decode(codec, b).Ok?
    ensures |b| >= HEADER_LEN && Encode(codec, Decode(codec, b).value) == Ok(ZeroReserved(b))
    ensures Typed(codec, Decode(codec, b).value)
  {
    DecodedFields(codec, b);
    var e := Decode(codec, b).value;
    var p, z := Fields(codec, e), ZeroReserved(b);
    FieldOffsets(codec, e);
    ReservedOnly(b, e.nodeId, e.payload);
    hide Le, Offset, Flatten, Decode, ZeroReserved;
    forall i | 0 <= i < |p|
      ensures FieldReads(z, p, i)
    {
      ZeroedField(p, z, e, i);
    }
    SameFields(p, z);
  }

  lemma ZeroedField(p: seq<Bytes>, z: Bytes, e: Envelope, i: nat)
    requires |p| == 14 && i < 14 && |z| == HEADER_LEN + |e.nodeId| + |e.payload|
    requires
      && Offset(p, 0) == 0 && Offset(p, 1) == 4 && Offset(p, 2) == 5 && Offset(p, 3) == 6 && Offset(p, 4) == 8
      && Offset(p, 5) == 16 && Offset(p, 6) == 24 && Offset(p, 7) == 32 && Offset(p, 8) == 36 && Offset(p, 9) == 38
      && Offset(p, 10) == 40 && Offset(p, 11) == 44 && Offset(p, 12) == 48 && Offset(p, 13) == 48 + |e.nodeId|
      && Offset(p, 14) == 48 + |e.nodeId| + |e.payload|
    requires
      && z[0..4] == p[0] && z[4..5] == p[1] && z[5..6] == p[2] && z[6..8] == p[3] && z[8..16] == p[4]
      && z[16..24] == p[5] && z[24..32] == p[6] && z[32..36] == p[7] && z[36..38] == p[8] && z[38..40] == p[9]
      && z[40..44] == p[10] && z[44..48] == p[11] && z[48..48 + |e.nodeId|] == p[12]
      && z[48 + |e.nodeId|..48 + |e.nodeId| + |e.payload|] == p[13]
    ensures FieldReads(z, p, i)
  {
    hide Offset;
  }

  /** What was read from the bytes writes them again, field by field. */
  lemma DecodedFields(codec: Codec, b: Bytes)
    requires Decode(codec, b).Ok?
    ensures
      var e := Decode(codec, b).value;
      && |b| == HEADER_LEN + |e.nodeId| + |e.payload|
      && 0 < |e.nodeId| <= MAX_NODE_ID_BYTES && 0 < |e.payload| && |b| <= MAX_ENVELOPE_BYTES
      && Typed(codec, e)
      && b[0..4] == MAGIC && b[4] == VERSION && b[5] == e.kind
      && b[8..16] == Le(e.bootId, 8) && b[16..24] == Le(e.sequence, 8) && b[24..32] == Le(e.capturedUnixMs, 8)
      && b[32..36] == Le(e.periodMs, 4) && b[36..38] == Le(|e.nodeId|, 2)
      && b[40..44] == Le(|e.payload|, 4) && b[44..48] == Le(codec.crc(e.payload), 4)
      && b[48..48 + |e.nodeId|] == e.nodeId && b[48 + |e.nodeId|..] == e.payload
  {
    Widths();
    LeOfFromLe(b[8..16]);
    LeOfFromLe(b[16..24]);
    LeOfFromLe(b[24..32]);
    LeOfFromLe(b[32..36]);
    LeOfFromLe(b[36..38]);
    LeOfFromLe(b[40..44]);
    LeOfFromLe(b[44..48]);
    hide Le, FromLe, Pow256;
  }

  lemma ReservedOnly(b: Bytes, nodeId: Bytes, payload: Bytes)
    requires |b| == HEADER_LEN + |nodeId| + |payload|
    requires b[48..48 + |nodeId|] == nodeId && b[48 + |nodeId|..] == payload
    ensures
      var z := ZeroReserved(b);
      && |z| == |b| && z[0..4] == b[0..4] && z[4..5] == [b[4]] && z[5..6] == [b[5]] && z[6..8] == [0, 0]
      && z[8..16] == b[8..16] && z[16..24] == b[16..24] && z[24..32] == b[24..32] && z[32..36] == b[32..36]
      && z[36..38] == b[36..38] && z[38..40] == [0, 0] && z[40..44] == b[40..44] && z[44..48] == b[44..48]
      && z[48..48 + |nodeId|] == nodeId && z[48 + |nodeId|..48 + |nodeId| + |payload|] == payload
  {}

  /** No two envelopes share an encoding. */
  lemma EncodeIsInjective(codec: Codec, e1: Envelope, e2: Envelope)
    requires codec.Valid() && Typed(codec, e1) && Typed(codec, e2)
    requires Encode(codec, e1).Ok? && Encode(codec, e1) == Encode(codec, e2)
    ensures e1 == e2
  {
    hide Encode, Decode, Typed;
    DecodeOfEncode(codec, e1);
    DecodeOfEncode(codec, e2);
  }

  /** Exactly the encodings are accepted, up to the reserved bytes. */
  lemma AcceptsExactlyEncodings(codec: Codec, b: Bytes)
    requires codec.Valid() && |b| >= HEADER_LEN
    ensures Decode(codec, b).Ok? <==> exists e :: Typed(codec, e) && Encode(codec, e) == Ok(ZeroReserved(b))
  {
    if Decode(codec, b).Ok? {
      EncodeOfDecode(codec, b);
    }
    if e :| Typed(codec, e) && Encode(codec, e) == Ok(ZeroReserved(b)) {
      DecodeOfEncode(codec, e);
      IgnoresReserved(codec, b);
    }
  }

  lemma IgnoresReserved(codec: Codec, b: Bytes)
    requires |b| >= HEADER_LEN
    ensures Decode(codec, ZeroReserved(b)) == Decode(codec, b)
  {
    var z := ZeroReserved(b);
    assert z[0..4] == b[0..4] && z[8..16] == b[8..16] && z[16..24] == b[16..24] && z[24..32] == b[24..32];
    assert z[32..36] == b[32..36] && z[36..38] == b[36..38] && z[40..44] == b[40..44] && z[44..48] == b[44..48];
    hide FromLe;
    assert z[48..] == b[48..];
    forall i | 48 <= i <= |b|
      ensures z[48..i] == b[48..i] && z[i..] == b[i..]
    {}
  }
}
