/** Streams that end in the middle: the decoders never take a part of a message for the
    whole, so a stream cut at any byte gives exactly the batches before the cut. */
module Cuts {
  import opened Wrappers
  import opened MessagePack
  import opened Wire
  import opened Framing

  /** A result with more bytes left over. */
  function More<Z>(r: Result<Z>, x: Bytes): Result<Z> {
    if r.Err? then Err else Ok(r.value, r.rest + x)
  }

  // ---------------------------------------------------------------- reading with more to come

  lemma NumberStable(b: Bytes, n: nat, x: Bytes)
    ensures ReadNumber(b, n).Ok? ==> ReadNumber(b + x, n) == More(ReadNumber(b, n), x)
  {
    if |b| >= 1 + n {
      assert (b + x)[1..1 + n] == b[1..1 + n];
      assert (b + x)[1 + n..] == b[1 + n..] + x;
    }
  }

  lemma TailStable(b: Bytes, n: nat, x: Bytes)
    requires n <= |b|
    ensures (b + x)[..n] == b[..n] && (b + x)[n..] == b[n..] + x
  {
  }

  lemma BodyStable(r: Result<nat>, x: Bytes)
    ensures Body(r).Ok? ==> Body(More(r, x)) == More(Body(r), x)
  {
    if Body(r).Ok? {
      TailStable(r.rest, r.value, x);
    }
  }

  lemma StringStable(b: Bytes, x: Bytes)
    ensures ReadString(b).Ok? ==> ReadString(b + x) == More(ReadString(b), x)
  {
    if ReadString(b).Ok? {
      TailStable(b, 1, x);
      NumberStable(b, 1, x);
      NumberStable(b, 2, x);
      NumberStable(b, 4, x);
      assert ReadStringHeader(b + x) == More(ReadStringHeader(b), x);
      BodyStable(ReadStringHeader(b), x);
    }
  }

  lemma BinStable(b: Bytes, x: Bytes)
    ensures ReadBin(b).Ok? ==> ReadBin(b + x) == More(ReadBin(b), x)
  {
    if ReadBin(b).Ok? {
      NumberStable(b, 1, x);
      NumberStable(b, 2, x);
      NumberStable(b, 4, x);
      assert ReadBinHeader(b + x) == More(ReadBinHeader(b), x);
      BodyStable(ReadBinHeader(b), x);
    }
  }

  lemma KeyStable(b: Bytes, x: Bytes)
    ensures ReadMapKey(b).Ok? ==> ReadMapKey(b + x) == More(ReadMapKey(b), x)
  {
    StringStable(b, x);
    BinStable(b, x);
  }

  lemma ArrayHeaderStable(b: Bytes, x: Bytes)
    ensures ReadArrayHeader(b).Ok? ==> ReadArrayHeader(b + x) == More(ReadArrayHeader(b), x)
  {
    if b != [] {
      TailStable(b, 1, x);
      NumberStable(b, 2, x);
      NumberStable(b, 4, x);
    }
  }

  lemma MapHeaderStable(b: Bytes, x: Bytes)
    ensures ReadMapHeader(b).Ok? ==> ReadMapHeader(b + x) == More(ReadMapHeader(b), x)
  {
    if b != [] {
      TailStable(b, 1, x);
      NumberStable(b, 2, x);
      NumberStable(b, 4, x);
    }
  }

  lemma IntegerStable(b: Bytes, x: Bytes)
    ensures ReadInteger(b).Ok? ==> ReadInteger(b + x) == More(ReadInteger(b), x)
  {
    if b != [] {
      TailStable(b, 1, x);
      NumberStable(b, 1, x);
      NumberStable(b, 2, x);
      NumberStable(b, 4, x);
      NumberStable(b, 8, x);
    }
  }

  lemma SizeStable(b: Bytes, x: Bytes)
    requires b != [] && ObjectSize(b).Ok?
    ensures ObjectSize(b + x).Ok? && ObjectSize(b + x).value == ObjectSize(b).value
  {
    NumberStable(b, 1, x);
    NumberStable(b, 2, x);
    NumberStable(b, 4, x);
  }

  lemma {:induction false} SkipStable(b: Bytes, count: nat, x: Bytes)
    ensures Skip(b, count).Ok? ==> Skip(b + x, count) == More(Skip(b, count), x)
    decreases |b|
  {
    if count > 0 && Skip(b, count).Ok? {
      var size := ObjectSize(b).value;
      SizeStable(b, x);
      TailStable(b, size.0, x);
      SkipStable(b[size.0..], count - 1 + size.1, x);
    }
  }

  // ---------------------------------------------------------------- messages with more to come

  ghost predicate ReadStable<Z>(read: Bytes -> Result<Z>, b: Bytes, x: Bytes) {
    read(b).Ok? ==> read(b + x) == More(read(b), x)
  }

  ghost predicate FieldStable<Z>(field: FieldDecoder<Z>, name: Bytes, b: Bytes, z: Z, x: Bytes) {
    field(name, b, z).Ok? ==> field(name, b + x, z) == More(field(name, b, z), x)
  }

  lemma {:induction false} FieldsStable<Z(!new)>(n: nat, b: Bytes, z: Z, field: FieldDecoder<Z>, x: Bytes)
    requires forall name: Bytes, c: Bytes, y: Z :: FieldStable(field, name, c, y, x)
    ensures DecodeFields(n, b, z, field).Ok? ==>
              DecodeFields(n, b + x, z, field) == More(DecodeFields(n, b, z, field), x)
  {
    if n > 0 && DecodeFields(n, b, z, field).Ok? {
      KeyStable(b, x);
      var k := ReadMapKey(b);
      assert FieldStable(field, k.value, k.rest, z, x);
      var r := field(k.value, k.rest, z);
      FieldsStable(n - 1, r.rest, r.value, field, x);
    }
  }

  lemma MapStable<Z(!new)>(b: Bytes, z: Z, field: FieldDecoder<Z>, x: Bytes)
    requires forall name: Bytes, c: Bytes, y: Z :: FieldStable(field, name, c, y, x)
    ensures DecodeMap(b, z, field).Ok? ==> DecodeMap(b + x, z, field) == More(DecodeMap(b, z, field), x)
  {
    MapHeaderStable(b, x);
    var h := ReadMapHeader(b);
    if h.Ok? {
      FieldsStable(h.value, h.rest, z, field, x);
    }
  }

  lemma {:induction false} ElementsStable<Z>(n: nat, b: Bytes, es: seq<Z>, read: Bytes -> Result<Z>, x: Bytes)
    requires forall c: Bytes :: ReadStable(read, c, x)
    ensures DecodeElements(n, b, es, read).Ok? ==>
              DecodeElements(n, b + x, es, read) == More(DecodeElements(n, b, es, read), x)
  {
    if n > 0 && DecodeElements(n, b, es, read).Ok? {
      assert ReadStable(read, b, x);
      ElementsStable(n - 1, read(b).rest, es + [read(b).value], read, x);
    }
  }

  lemma EntriesStable(b: Bytes, x: Bytes)
    ensures DecodeEntries(b).Ok? ==> DecodeEntries(b + x) == More(DecodeEntries(b), x)
  {
    ArrayHeaderStable(b, x);
    forall c: Bytes ensures ReadStable(ReadBin, c, x) {
      BinStable(c, x);
    }
    var h := ReadArrayHeader(b);
    if h.Ok? {
      ElementsStable(h.value, h.rest, [], ReadBin, x);
    }
  }

  lemma HandshakeFieldStable(name: Bytes, b: Bytes, z: Handshake, x: Bytes)
    ensures FieldStable(HandshakeField, name, b, z, x)
  {
    IntegerStable(b, x);
    StringStable(b, x);
    SkipStable(b, 1, x);
  }

  lemma OptionalHandshakeStable(b: Bytes, z: Option<Handshake>, x: Bytes)
    ensures DecodeOptionalHandshake(b, z).Ok? ==>
              DecodeOptionalHandshake(b + x, z) == More(DecodeOptionalHandshake(b, z), x)
  {
    if b != [] && b[0] == 0xc0 {
      TailStable(b, 1, x);
    } else if DecodeOptionalHandshake(b, z).Ok? {
      forall name: Bytes, c: Bytes, y: Handshake ensures FieldStable(HandshakeField, name, c, y, x) {
        HandshakeFieldStable(name, c, y, x);
      }
      MapStable(b, if z.None? then ZERO_HANDSHAKE else z.value, HandshakeField, x);
    }
  }

  lemma BatchFieldStable(name: Bytes, b: Bytes, z: Batch, x: Bytes)
    ensures FieldStable(BatchField, name, b, z, x)
  {
    StringStable(b, x);
    EntriesStable(b, x);
    OptionalHandshakeStable(b, z.handshake, x);
    SkipStable(b, 1, x);
  }

  /** What a decoded batch leaves over may be followed by anything. */
  lemma BatchStable(b: Bytes, x: Bytes)
    ensures DecodeBatch(b).Ok? ==> DecodeBatch(b + x) == More(DecodeBatch(b), x)
  {
    forall name: Bytes, c: Bytes, y: Batch ensures FieldStable(BatchField, name, c, y, x) {
      BatchFieldStable(name, c, y, x);
    }
    MapStable(b, ZERO_BATCH, BatchField, x);
  }

  // ---------------------------------------------------------------- cut streams

  /** A decoder that is stable and takes a message whole does not take a part of it. */
  lemma CutMessage<Z>(read: Bytes -> Result<Z>, whole: Bytes, n: nat, z: Z)
    requires n < |whole| && read(whole) == Ok(z, []) && ReadStable(read, whole[..n], whole[n..])
    ensures read(whole[..n]).Err?
  {
    assert whole == whole[..n] + whole[n..];
  }

  /** No proper part of a batch decodes. */
  lemma CutBatch(b: Batch, n: nat)
    requires ValidBatch(b) && n < |EncodeBatch(b)|
    ensures DecodeBatch(EncodeBatch(b)[..n]).Err?
  {
    DecodesWhole(b);
    BatchStable(EncodeBatch(b)[..n], EncodeBatch(b)[n..]);
    CutMessage(DecodeBatch, EncodeBatch(b), n, b);
  }

  lemma DecodesWhole(b: Batch)
    requires ValidBatch(b)
    ensures DecodeBatch(EncodeBatch(b)) == Ok(b, [])
  {
    BatchRoundTrip(b, []);
    assert EncodeBatch(b) + [] == EncodeBatch(b);
  }

  lemma EncodedSplits(bs: seq<Batch>, k: nat)
    requires ValidBatches(bs) && k <= |bs|
    ensures EncodedBatches(bs)[..k] == EncodedBatches(bs[..k])
    ensures EncodedBatches(bs)[k..] == EncodedBatches(bs[k..])
  {
    var xs := EncodedBatches(bs);
    forall i | 0 <= i < k ensures xs[..k][i] == EncodedBatches(bs[..k])[i] {
    }
    forall i | 0 <= i < |bs| - k ensures xs[k..][i] == EncodedBatches(bs[k..])[i] {
      assert bs[k..][i] == bs[k + i];
    }
  }

  lemma StreamSplits(bs: seq<Batch>, k: nat)
    requires ValidBatches(bs) && k <= |bs|
    ensures Stream(bs) == Stream(bs[..k]) + Stream(bs[k..])
  {
    EncodedSplits(bs, k);
    ConcatSplits(EncodedBatches(bs), k);
  }

  lemma ConcatSplits(xs: seq<Bytes>, k: nat)
    requires k <= |xs|
    ensures Concat(xs) == Concat(xs[..k]) + Concat(xs[k..])
  {
    assert xs == xs[..k] + xs[k..];
    ConcatAppended(xs[..k], xs[k..]);
  }

  lemma StreamHead(bs: seq<Batch>)
    requires ValidBatches(bs) && bs != []
    ensures Stream(bs) == EncodeBatch(bs[0]) + Stream(bs[1..])
  {
    EncodedSplits(bs, 1);
  }

  lemma CutTail(bs: seq<Batch>, n: nat)
    requires ValidBatches(bs) && bs != [] && n < |EncodeBatch(bs[0])|
    ensures n <= |Stream(bs)| && Received(Stream(bs)[..n]) == []
  {
    StreamHead(bs);
    assert Stream(bs)[..n] == EncodeBatch(bs[0])[..n];
    CutBatch(bs[0], n);
  }

  lemma CutJoins(before: Bytes, after: Bytes, n: nat)
    requires |before| <= n <= |before| + |after|
    ensures (before + after)[..n] == before + after[..n - |before|]
  {
  }

  lemma StreamOneMore(bs: seq<Batch>, k: nat)
    requires ValidBatches(bs) && k < |bs|
    ensures |Stream(bs[..k + 1])| == |Stream(bs[..k])| + |EncodeBatch(bs[k])|
  {
    StreamSplits(bs[..k + 1], k);
    assert bs[..k + 1][..k] == bs[..k] && bs[..k + 1][k..] == [bs[k]];
    StreamHead([bs[k]]);
  }

  /** A stream cut at any byte, between batches or inside one, is received as exactly the
      batches that lie whole before the cut. */
  lemma CutStream(bs: seq<Batch>, k: nat, n: nat)
    requires ValidBatches(bs) && k <= |bs|
    requires |Stream(bs[..k])| <= n <= |Stream(bs)| && (k < |bs| ==> n < |Stream(bs[..k + 1])|)
    ensures Received(Stream(bs)[..n]) == bs[..k]
  {
    StreamSplits(bs, k);
    var after, m := Stream(bs[k..]), n - |Stream(bs[..k])|;
    CutJoins(Stream(bs[..k]), after, n);
    StreamRoundTrip(bs[..k], after[..m]);
    if k < |bs| {
      StreamOneMore(bs, k);
      CutTail(bs[k..], m);
    } else {
      assert after[..m] == [];
      NothingReceived();
    }
    assert bs[..k] + [] == bs[..k];
  }

  lemma NothingReceived()
    ensures Received([]) == []
  {
  }

  /** The server reads at most this much from one connection. */
  const CONNECTION_LIMIT := 100 * 1024 * 1024

  function Limited(b: Bytes): Bytes { if |b| <= CONNECTION_LIMIT then b else b[..CONNECTION_LIMIT] }

  lemma LimitedTo(b: Bytes)
    ensures |b| <= 104_857_600 ==> Limited(b) == b
    ensures |b| > 104_857_600 ==> Limited(b) == b[..104_857_600]
  {
  }

  /** Of what a client writes to one connection the server receives the batches that lie
      whole within its limit, and no others. */
  lemma LimitedStream(bs: seq<Batch>, k: nat)
    requires ValidBatches(bs) && k <= |bs| && |Stream(bs[..k])| <= CONNECTION_LIMIT
    requires k < |bs| ==> |Stream(bs[..k + 1])| > CONNECTION_LIMIT
    ensures Received(Limited(Stream(bs))) == bs[..k]
  {
    StreamSplits(bs, k);
    if k < |bs| {
      StreamSplits(bs, k + 1);
      CutStream(bs, k, CONNECTION_LIMIT);
    } else {
      assert bs[..k] == bs;
      WholeStream(bs);
    }
  }
}
