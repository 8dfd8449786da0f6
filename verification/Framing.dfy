/** Batches on a replication stream: the codec of transport_gen.go and the framing that
    the server loop of transport.go relies on. */
module Framing {
  import opened Wrappers
  import opened MessagePack
  import opened Clock
  import opened Wire

  // ---------------------------------------------------------------- Handshake

  function HandshakeFields(h: Handshake): seq<Bytes>
    requires ValidHandshake(h)
  {
    if h.authToken == [] then [Field(LS, AppendUint(h.lastSeenSeq))]
    else [Field(LS, AppendUint(h.lastSeenSeq)), Field(AT, AppendString(h.authToken))]
  }

  function EncodeHandshake(h: Handshake): Bytes
    requires ValidHandshake(h)
  {
    [0x80 + |HandshakeFields(h)|] + Concat(HandshakeFields(h))
  }

  function HandshakeField(name: Bytes, b: Bytes, z: Handshake): Result<Handshake> {
    if name == LS then Keep(ReadUint64(b), x => z.(lastSeenSeq := x))
    else if name == AT then Keep(ReadString(b), x => z.(authToken := x))
    else SkipField(b, z)
  }

  lemma DecodeSeen(u: int, r: Bytes, z: Handshake)
    requires IsUint64(u)
    ensures HandshakeField(LS, AppendUint(u) + r, z) == Ok(z.(lastSeenSeq := u), r)
  {
    ReadAppendUint(u, r);
  }

  lemma DecodeToken(s: Bytes, r: Bytes, z: Handshake)
    requires Sized(s)
    ensures HandshakeField(AT, AppendString(s) + r, z) == Ok(z.(authToken := s), r)
  {
    ReadAppendString(s, r);
  }

  lemma HandshakeRoundTrip(h: Handshake, rest: Bytes)
    requires ValidHandshake(h)
    ensures DecodeMap(EncodeHandshake(h) + rest, ZERO_HANDSHAKE, HandshakeField) == Ok(h, rest)
  {
    var seen, token := AppendUint(h.lastSeenSeq), AppendString(h.authToken);
    if h.authToken == [] {
      DecodeSeen(h.lastSeenSeq, rest, ZERO_HANDSHAKE);
      DecodeOne(LS, seen, rest, ZERO_HANDSHAKE, h, HandshakeField);
    } else {
      var z := Handshake(h.lastSeenSeq, []);
      DecodeSeen(h.lastSeenSeq, Field(AT, token) + rest, ZERO_HANDSHAKE);
      DecodeToken(h.authToken, rest, z);
      DecodeTwo(LS, seen, AT, token, rest, ZERO_HANDSHAKE, z, h, HandshakeField);
    }
  }

  function HandshakeSize(h: Handshake): nat { 1 + 3 + 9 + 3 + 5 + |h.authToken| }

  lemma HandshakeFits(h: Handshake)
    requires ValidHandshake(h)
    ensures 2 <= |EncodeHandshake(h)| <= HandshakeSize(h) && EncodeHandshake(h)[0] != 0xc0
  {
    ReadAppendUint(h.lastSeenSeq, []);
    ReadAppendString(h.authToken, []);
    var first, second := Field(LS, AppendUint(h.lastSeenSeq)), Field(AT, AppendString(h.authToken));
    ConcatOneMore([], first);
    ConcatOneMore([first], second);
    assert HandshakeFields(h) == if h.authToken == [] then [first] else [first] + [second];
  }

  // ---------------------------------------------------------------- entries

  function EncodedEntries(es: seq<Bytes>): seq<Bytes>
    requires forall i :: 0 <= i < |es| ==> Sized(es[i])
  {
    seq(|es|, i requires 0 <= i < |es| => AppendBytes(es[i]))
  }

  /** The array of entries, each an opaque byte string. */
  function EncodeEntries(es: seq<Bytes>): Bytes
    requires |es| < TWO32 && forall i :: 0 <= i < |es| ==> Sized(es[i])
  {
    ArrayHeader(|es|) + Concat(EncodedEntries(es))
  }

  function DecodeEntries(b: Bytes): Result<seq<Bytes>> { DecodeArray(b, ReadBin) }

  lemma EntriesRoundTrip(es: seq<Bytes>, rest: Bytes)
    requires |es| < TWO32 && forall i :: 0 <= i < |es| ==> Sized(es[i])
    ensures DecodeEntries(EncodeEntries(es) + rest) == Ok(es, rest)
  {
    var xs := EncodedEntries(es);
    forall i, r: Bytes | 0 <= i < |es| ensures ReadBin(xs[i] + r) == Ok(es[i], r) {
      ReadAppendBytes(es[i], r);
    }
    ReadAppendArrayHeader(|es|, Concat(xs) + rest);
    assert EncodeEntries(es) + rest == ArrayHeader(|es|) + (Concat(xs) + rest);
    ArrayRoundTrip(EncodeEntries(es) + rest, xs, es, rest, ReadBin);
  }

  // ---------------------------------------------------------------- Batch

  function BatchFields(b: Batch): seq<Bytes>
    requires ValidBatch(b)
  {
    if b.handshake.None? then [Field(F, AppendString(b.fromNode)), Field(E, EncodeEntries(b.entries))]
    else [Field(F, AppendString(b.fromNode)), Field(E, EncodeEntries(b.entries)),
          Field(H, EncodeHandshake(b.handshake.value))]
  }

  function EncodeBatch(b: Batch): Bytes
    requires ValidBatch(b)
  {
    [0x80 + |BatchFields(b)|] + Concat(BatchFields(b))
  }

  function DecodeOptionalHandshake(b: Bytes, z: Option<Handshake>): Result<Option<Handshake>> {
    if b != [] && b[0] == 0xc0 then Ok(None, b[1..])
    else Keep(DecodeMap(b, if z.None? then ZERO_HANDSHAKE else z.value, HandshakeField), h => Some(h))
  }

  function BatchField(name: Bytes, b: Bytes, z: Batch): Result<Batch> {
    if name == F then Keep(ReadString(b), x => z.(fromNode := x))
    else if name == E then Keep(DecodeEntries(b), x => z.(entries := x))
    else if name == H then Keep(DecodeOptionalHandshake(b, z.handshake), x => z.(handshake := x))
    else SkipField(b, z)
  }

  function DecodeBatch(b: Bytes): Result<Batch> { DecodeMap(b, ZERO_BATCH, BatchField) }

  lemma DecodeFrom(s: Bytes, r: Bytes, z: Batch)
    requires Sized(s)
    ensures BatchField(F, AppendString(s) + r, z) == Ok(z.(fromNode := s), r)
  {
    ReadAppendString(s, r);
  }

  lemma DecodeBatchEntries(es: seq<Bytes>, r: Bytes, z: Batch)
    requires |es| < TWO32 && forall i :: 0 <= i < |es| ==> Sized(es[i])
    ensures BatchField(E, EncodeEntries(es) + r, z) == Ok(z.(entries := es), r)
  {
    EntriesRoundTrip(es, r);
  }

  lemma DecodeBatchHandshake(h: Handshake, r: Bytes, z: Batch)
    requires ValidHandshake(h) && z.handshake.None?
    ensures BatchField(H, EncodeHandshake(h) + r, z) == Ok(z.(handshake := Some(h)), r)
  {
    HandshakeFits(h);
    HandshakeRoundTrip(h, r);
  }

  /** Every batch decodes to itself, whatever follows, and leaves exactly what follows. */
  lemma BatchRoundTrip(b: Batch, rest: Bytes)
    requires ValidBatch(b)
    ensures DecodeBatch(EncodeBatch(b) + rest) == Ok(b, rest)
  {
    var f, e := AppendString(b.fromNode), EncodeEntries(b.entries);
    var z1, z2 := Batch(b.fromNode, [], None), Batch(b.fromNode, b.entries, None);
    if b.handshake.None? {
      DecodeFrom(b.fromNode, Field(E, e) + rest, ZERO_BATCH);
      DecodeBatchEntries(b.entries, rest, z1);
      DecodeTwo(F, f, E, e, rest, ZERO_BATCH, z1, b, BatchField);
    } else {
      var h := EncodeHandshake(b.handshake.value);
      DecodeFrom(b.fromNode, Field(E, e) + (Field(H, h) + rest), ZERO_BATCH);
      DecodeBatchEntries(b.entries, Field(H, h) + rest, z1);
      DecodeBatchHandshake(b.handshake.value, rest, z2);
      DecodeThree(F, f, E, e, H, h, rest, ZERO_BATCH, z1, z2, b, BatchField);
    }
  }

  // ---------------------------------------------------------------- the batch codec as loops

  method MarshalBatch(z: Batch, b: Bytes) returns (o: Bytes)
    requires ValidBatch(z)
    ensures o == b + EncodeBatch(z)
  {
    var body := MarshalFields(z);
    var header: Byte := if z.handshake.None? then 0x82 else 0x83;
    o := b + ([header] + body);
  }

  method MarshalFields(z: Batch) returns (o: Bytes)
    requires ValidBatch(z)
    ensures o == Concat(BatchFields(z))
  {
    var from := Field(F, AppendString(z.fromNode));
    var es := MarshalEntries(z.entries);
    var entries := Field(E, es);
    o := from + entries;
    if z.handshake.None? {
      JoinTwo([], from, entries, []);
    } else {
      var handshake := Field(H, EncodeHandshake(z.handshake.value));
      JoinThree([], from, entries, handshake, []);
      o := o + handshake;
    }
  }

  method MarshalEntries(es: seq<Bytes>) returns (o: Bytes)
    requires |es| < TWO32 && forall i :: 0 <= i < |es| ==> Sized(es[i])
    ensures o == EncodeEntries(es)
  {
    var header := ArrayHeader(|es|);
    ghost var xs := EncodedEntries(es);
    o := [];
    for i := 0 to |es|
      invariant o == Concat(xs[..i])
    {
      assert xs[..i + 1] == xs[..i] + [xs[i]];
      ConcatOneMore(xs[..i], xs[i]);
      o := o + AppendBytes(es[i]);
    }
    assert xs[..|es|] == xs;
    o := header + o;
  }

  method UnmarshalBatch(b: Bytes) returns (r: Result<Batch>)
    ensures r == DecodeBatch(b)
  {
    r := UnmarshalMap(b, ZERO_BATCH, BatchField);
  }

  method UnmarshalEntries(b: Bytes) returns (r: Result<seq<Bytes>>)
    ensures r == DecodeEntries(b)
  {
    r := UnmarshalArray(b, ReadBin);
  }

  ghost function EntriesSize(es: seq<Bytes>): nat {
    if es == [] then 0 else EntriesSize(es[..|es| - 1]) + 5 + |es[|es| - 1]|
  }

  ghost function BatchSize(z: Batch): nat {
    1 + 2 + 5 + |z.fromNode| + 2 + 5 + EntriesSize(z.entries)
    + 2 + if z.handshake.None? then 1 else HandshakeSize(z.handshake.value)
  }

  method MeasureBatch(z: Batch) returns (s: nat)
    ensures s == BatchSize(z)
  {
    s := 1 + 2 + 5 + |z.fromNode| + 2 + 5;
    for i := 0 to |z.entries|
      invariant s == 15 + |z.fromNode| + EntriesSize(z.entries[..i])
    {
      assert z.entries[..i + 1][..i] == z.entries[..i];
      s := s + 5 + |z.entries[i]|;
    }
    assert z.entries[..|z.entries|] == z.entries;
    s := s + 2;
    if z.handshake.None? {
      s := s + 1;
    } else {
      s := s + HandshakeSize(z.handshake.value);
    }
  }

  lemma {:induction false} ConcatFits(xs: seq<Bytes>, es: seq<Bytes>)
    requires |xs| == |es| && forall i :: 0 <= i < |es| ==> |xs[i]| <= 5 + |es[i]|
    ensures |Concat(xs)| <= EntriesSize(es)
  {
    if es != [] {
      var n := |es| - 1;
      assert xs == xs[..n] + [xs[n]];
      ConcatOneMore(xs[..n], xs[n]);
      ConcatFits(xs[..n], es[..n]);
    }
  }

  lemma EntriesFit(es: seq<Bytes>)
    requires forall i :: 0 <= i < |es| ==> Sized(es[i])
    ensures |Concat(EncodedEntries(es))| <= EntriesSize(es)
  {
    var xs := EncodedEntries(es);
    forall i | 0 <= i < |es| ensures |xs[i]| <= 5 + |es[i]| {
      ReadAppendBytes(es[i], []);
    }
    ConcatFits(xs, es);
  }

  /** The size estimate for the batch buffer bounds the encoding of every batch. */
  lemma BatchFits(z: Batch)
    requires ValidBatch(z)
    ensures |EncodeBatch(z)| <= BatchSize(z)
  {
    BatchLength(z);
    EntriesFit(z.entries);
    ReadAppendString(z.fromNode, []);
    ReadAppendArrayHeader(|z.entries|, []);
    if z.handshake.Some? {
      HandshakeFits(z.handshake.value);
    }
  }

  lemma BatchLength(z: Batch)
    requires ValidBatch(z)
    ensures |EncodeBatch(z)| == 1 + 2 + |AppendString(z.fromNode)| + 2 + |EncodeEntries(z.entries)|
              + if z.handshake.None? then 0 else 2 + |EncodeHandshake(z.handshake.value)|
  {
    var from, entries := Field(F, AppendString(z.fromNode)), Field(E, EncodeEntries(z.entries));
    if z.handshake.None? {
      JoinTwo([], from, entries, []);
    } else {
      JoinThree([], from, entries, Field(H, EncodeHandshake(z.handshake.value)), []);
    }
  }

  // ---------------------------------------------------------------- streams

  predicate ValidBatches(bs: seq<Batch>) { forall i :: 0 <= i < |bs| ==> ValidBatch(bs[i]) }

  function EncodedBatches(bs: seq<Batch>): seq<Bytes>
    requires ValidBatches(bs)
  {
    seq(|bs|, i requires 0 <= i < |bs| => EncodeBatch(bs[i]))
  }

  /** What a client writes to a connection. */
  function Stream(bs: seq<Batch>): Bytes
    requires ValidBatches(bs)
  {
    Concat(EncodedBatches(bs))
  }

  /** The batches that the server loop decodes before the stream ends or a batch fails. */
  function Received(b: Bytes): seq<Batch> { Messages(b, DecodeBatch) }

  /** Framing: any number of batches written back to back is decoded to exactly that list,
      and whatever the stream holds after them is decoded as if it stood alone. */
  lemma StreamRoundTrip(bs: seq<Batch>, remainder: Bytes)
    requires ValidBatches(bs)
    ensures Received(Stream(bs) + remainder) == bs + Received(remainder)
  {
    var xs := EncodedBatches(bs);
    forall i, r: Bytes | 0 <= i < |bs| ensures xs[i] != [] && DecodeBatch(xs[i] + r) == Ok(bs[i], r) {
      BatchRoundTrip(bs[i], r);
    }
    MessagesOfList(xs, bs, remainder, DecodeBatch);
  }

  lemma WholeStream(bs: seq<Batch>)
    requires ValidBatches(bs)
    ensures Received(Stream(bs)) == bs
  {
    StreamRoundTrip(bs, []);
    assert Stream(bs) + [] == Stream(bs);
    assert bs + [] == bs;
  }
}
