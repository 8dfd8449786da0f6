/** From the log of one node to the calls of another: entries appended, fetched, batched,
    streamed, received and decoded. */
module Delivery {
  import opened Wrappers
  import opened MessagePack
  import opened Wire
  import opened Framing
  import opened Cuts
  import opened DeltaLog
  import opened Replication

  predicate IsEncoding(b: Bytes, e: LogEntry) { ValidEntry(e) && Sized(b) && b == EncodeEntry(e) }

  /** The history of a log holds the encodings of these entries. */
  ghost predicate Holds(history: seq<Bytes>, entries: seq<LogEntry>) {
    |history| == |entries| && forall i :: 0 <= i < |history| ==> IsEncoding(history[i], entries[i])
  }

  /** The raw entries of a list of batches. */
  function RawOf(bs: seq<Batch>): seq<Bytes> {
    if bs == [] then [] else RawOf(bs[..|bs| - 1]) + bs[|bs| - 1].entries
  }

  /** Decodes each of a list, passing over those that do not decode. */
  function DecodeEach<Z>(raw: seq<Bytes>, decode: Bytes -> Result<Z>): seq<Z> {
    if raw == [] then []
    else
      var n := |raw| - 1;
      DecodeEach(raw[..n], decode) + if decode(raw[n]).Ok? then [decode(raw[n]).value] else []
  }

  lemma {:induction false} DecodeEachOf<Z>(raw: seq<Bytes>, zs: seq<Z>, decode: Bytes -> Result<Z>)
    requires |raw| == |zs| && forall i :: 0 <= i < |raw| ==> decode(raw[i]) == Ok(zs[i], [])
    ensures DecodeEach(raw, decode) == zs
  {
    if raw != [] {
      var n := |raw| - 1;
      DecodeEachOf(raw[..n], zs[..n], decode);
      assert zs == zs[..n] + [zs[n]];
    }
  }

  /** The entries that the server decodes from a list of raw ones and hands to the merge. */
  function DecodeAll(raw: seq<Bytes>): seq<LogEntry> { DecodeEach(raw, DecodeEntry) }

  /** The server's loop over the entries of a batch. */
  method DecodeBatchEntries(raw: seq<Bytes>) returns (es: seq<LogEntry>)
    ensures es == DecodeAll(raw)
  {
    es := [];
    for i := 0 to |raw|
      invariant es == DecodeAll(raw[..i])
    {
      assert raw[..i + 1][..i] == raw[..i];
      var r := UnmarshalEntry(raw[i]);
      if r.Err? {
        continue;
      }
      es := es + [r.value];
    }
    assert raw[..|raw|] == raw;
  }

  function Normals(es: seq<LogEntry>): seq<LogEntry> { seq(|es|, i requires 0 <= i < |es| => Normal(es[i])) }

  lemma DecodesToNormal(b: Bytes, e: LogEntry)
    requires IsEncoding(b, e)
    ensures DecodeEntry(b) == Ok(Normal(e), [])
  {
    EntryRoundTrip(e, []);
    assert b + [] == b;
  }

  lemma DecodeHistory(history: seq<Bytes>, entries: seq<LogEntry>, a: nat, b: nat)
    requires Holds(history, entries) && a <= b <= |history|
    ensures DecodeAll(history[a..b]) == Normals(entries[a..b])
  {
    var raw, es := history[a..b], entries[a..b];
    forall i | 0 <= i < |raw| ensures DecodeEntry(raw[i]) == Ok(Normals(es)[i], []) {
      assert IsEncoding(history[a + i], entries[a + i]);
      DecodesToNormal(raw[i], es[i]);
    }
    DecodeEachOf(raw, Normals(es), DecodeEntry);
  }

  lemma {:induction false} RawPrefix(bs: seq<Batch>, k: nat)
    requires k <= |bs|
    ensures RawOf(bs[..k]) <= RawOf(bs)
  {
    if k == |bs| {
      assert bs[..k] == bs;
    } else {
      var n := |bs| - 1;
      RawPrefix(bs[..n], k);
      assert bs[..n][..k] == bs[..k];
    }
  }

  /** How many batches lie whole before byte n of their stream. */
  lemma {:induction false} WholeBefore(bs: seq<Batch>, n: nat, limit: nat) returns (k: nat)
    requires ValidBatches(bs) && limit <= |bs| && n <= |Stream(bs)|
    requires limit < |bs| ==> n < |Stream(bs[..limit + 1])|
    ensures k <= limit && |Stream(bs[..k])| <= n && (k < |bs| ==> n < |Stream(bs[..k + 1])|)
  {
    if |Stream(bs[..limit])| <= n {
      k := limit;
    } else {
      assert limit > 0 by {
        assert bs[..0] == [];
      }
      k := WholeBefore(bs, n, limit - 1);
    }
  }

  lemma NormalsPrefix(entries: seq<LogEntry>, a: nat, c: nat, b: nat)
    requires a <= c <= b <= |entries|
    ensures Normals(entries[a..c]) <= Normals(entries[a..b])
  {
    assert Normals(entries[a..b])[..c - a] == Normals(entries[a..c]);
  }

  lemma PartDecodes(raw: seq<Bytes>, history: seq<Bytes>, entries: seq<LogEntry>, a: nat, b: nat)
    requires Holds(history, entries) && a <= b <= |history| && raw <= history[a..b]
    ensures DecodeAll(raw) <= Normals(entries[a..b]) && |DecodeAll(raw)| == |raw|
  {
    var c := a + |raw|;
    assert raw == history[a..c];
    DecodeHistory(history, entries, a, c);
    NormalsPrefix(entries, a, c, b);
  }

  /** The replicator never sends a batch without entries. */
  ghost predicate NoneEmpty(bs: seq<Batch>) { forall i :: 0 <= i < |bs| ==> bs[i].entries != [] }

  lemma {:induction false} FewerRaw(bs: seq<Batch>, k: nat)
    requires NoneEmpty(bs) && k < |bs|
    ensures |RawOf(bs[..k])| < |RawOf(bs)|
  {
    var n := |bs| - 1;
    RawPrefix(bs[..n], k);
    assert bs[..n][..k] == bs[..k] && bs[n].entries != [];
  }

  /** What a server hands to the merge of the bytes written to one connection. */
  function Handed(stream: Bytes): seq<LogEntry> { DecodeAll(RawOf(Received(Limited(stream)))) }

  lemma LimitedCut(stream: Bytes, n: nat)
    requires n <= |stream|
    ensures Limited(stream[..n]) == stream[..AtMost(n, CONNECTION_LIMIT)]
  {
  }

  /** A connection that ends anywhere makes the peer decode a first part of the entries it
      carries and hand them to the merge, in order and each whole. They are all of them
      exactly when the connection ended behind the last batch and was no longer than a server
      reads. */
  lemma CutDelivery(bs: seq<Batch>, history: seq<Bytes>, entries: seq<LogEntry>, a: nat, b: nat, n: nat)
    requires ValidBatches(bs) && Holds(history, entries) && a <= b <= |history| && RawOf(bs) == history[a..b]
    requires n <= |Stream(bs)|
    ensures Handed(Stream(bs)[..n]) <= Normals(entries[a..b])
    ensures n == |Stream(bs)| <= CONNECTION_LIMIT ==> Handed(Stream(bs)[..n]) == Normals(entries[a..b])
    ensures NoneEmpty(bs) && Handed(Stream(bs)[..n]) == Normals(entries[a..b]) ==>
              n == |Stream(bs)| <= CONNECTION_LIMIT
  {
    var m := AtMost(n, CONNECTION_LIMIT);
    LimitedCut(Stream(bs), n);
    var k := WholeBefore(bs, m, |bs|);
    CutStream(bs, k, m);
    RawPrefix(bs, k);
    PartDecodes(RawOf(bs[..k]), history, entries, a, b);
    if k == |bs| {
      assert bs[..k] == bs;
      DecodeHistory(history, entries, a, b);
    } else {
      StreamSplits(bs, k + 1);
      if NoneEmpty(bs) {
        FewerRaw(bs, k);
      }
    }
  }

  /** End to end: batches that hold a part of the log, written back to back to a connection,
      make the peer decode a first part of those entries in order, as the wire leaves them,
      and hand them to the merge. Batches as the replicator sends them make it all of them
      exactly when they fit within what a server reads from one connection. */
  lemma EndToEnd(bs: seq<Batch>, history: seq<Bytes>, entries: seq<LogEntry>, a: nat, b: nat)
    requires ValidBatches(bs) && Holds(history, entries) && a <= b <= |history| && RawOf(bs) == history[a..b]
    ensures Handed(Stream(bs)) <= Normals(entries[a..b])
    ensures |Stream(bs)| <= CONNECTION_LIMIT ==> Handed(Stream(bs)) == Normals(entries[a..b])
    ensures NoneEmpty(bs) ==> (Handed(Stream(bs)) == Normals(entries[a..b]) <==> |Stream(bs)| <= CONNECTION_LIMIT)
  {
    CutDelivery(bs, history, entries, a, b, |Stream(bs)|);
    assert Stream(bs)[..|Stream(bs)|] == Stream(bs);
  }

  lemma RawGrows(bs: seq<Batch>, b: Batch)
    ensures RawOf(bs + [b]) == RawOf(bs) + b.entries
  {
    assert (bs + [b])[..|bs|] == bs;
  }

  lemma StreamGrows(bs: seq<Batch>, b: Batch)
    requires ValidBatches(bs) && ValidBatch(b)
    ensures ValidBatches(bs + [b]) && Stream(bs + [b]) == Stream(bs) + EncodeBatch(b)
  {
    var more := bs + [b];
    StreamSplits(more, |bs|);
    assert more[..|bs|] == bs && more[|bs|..] == [b];
    StreamHead([b]);
    assert EncodeBatch(b) + [] == EncodeBatch(b);
  }

  lemma SliceIsValid(history: seq<Bytes>, entries: seq<LogEntry>, a: nat, b: nat, from: Bytes, h: Option<Handshake>)
    requires Holds(history, entries) && a <= b <= |history| && b - a <= BATCH_ENTRIES && Sized(from)
    requires h.Some? ==> ValidHandshake(h.value)
    ensures ValidBatch(Batch(from, history[a..b], h))
  {
    forall i | 0 <= i < b - a ensures Sized(history[a..b][i]) {
      assert IsEncoding(history[a + i], entries[a + i]);
    }
  }

  /** The stream carries the entries of the history after `start` up to `upTo`. */
  ghost predicate Carries(stream: Bytes, bs: seq<Batch>, history: seq<Bytes>, start: nat, upTo: nat) {
    && start <= upTo <= |history|
    && ValidBatches(bs) && NoneEmpty(bs) && stream == Stream(bs) && RawOf(bs) == history[start..upTo]
  }

  lemma SlicesJoin(history: seq<Bytes>, a: nat, b: nat, c: nat)
    requires a <= b <= c <= |history|
    ensures history[a..b] + history[b..c] == history[a..c]
  {
  }

  lemma CarriesMore(
    stream: Bytes, bs: seq<Batch>, b: Batch, history: seq<Bytes>, start: nat, upTo: nat, next: nat)
    requires Carries(stream, bs, history, start, upTo) && ValidBatch(b)
    requires upTo < next <= |history| && b.entries == history[upTo..next]
    ensures Carries(stream + EncodeBatch(b), bs + [b], history, start, next)
  {
    StreamGrows(bs, b);
    RawGrows(bs, b);
    SlicesJoin(history, start, upTo, next);
  }

  /** Writes a batch of raw entries after those that a connection carries. */
  method WriteBatch(
    stream: Bytes, raw: seq<Bytes>, from: Bytes, h: Option<Handshake>,
    ghost bs: seq<Batch>, ghost history: seq<Bytes>, ghost entries: seq<LogEntry>,
    ghost start: nat, ghost upTo: nat, ghost next: nat)
    returns (stream': Bytes, ghost bs': seq<Batch>)
    requires Holds(history, entries) && Carries(stream, bs, history, start, upTo)
    requires upTo < next <= |history| && raw == history[upTo..next] && next - upTo <= BATCH_ENTRIES
    requires Sized(from) && (h.Some? ==> ValidHandshake(h.value))
    ensures Carries(stream', bs', history, start, next)
  {
    SliceIsValid(history, entries, upTo, next, from, h);
    var b := Batch(from, raw, h);
    CarriesMore(stream, bs, b, history, start, upTo, next);
    stream' := MarshalBatch(b, stream);
    bs' := bs + [b];
  }

  /** The replicator loop down to the bytes of a connection. The first batch carries the
      handshake. */
  method ShipAll(
    r: Replicator, log: DeltaLog, peer: string, recorded: nat, from: Bytes, h: Handshake, ghost entries: seq<LogEntry>)
    returns (stream: Bytes, ghost bs: seq<Batch>)
    requires log.Valid() && AllReadable(log.Contents(), log.history) && Holds(log.history, entries)
    requires Earliest(log.head, log.capacity) <= r.Cursor(peer, recorded) + 1 <= log.head
    requires Sized(from) && ValidHandshake(h)
    modifies r
    ensures r.Cursor(peer, recorded) == log.head - 1
    ensures Carries(stream, bs, log.history, old(r.Cursor(peer, recorded)), log.head - 1)
  {
    stream, bs := [], [];
    var handshake := Some(h);
    ghost var start := r.Cursor(peer, recorded);
    while log.head > r.Cursor(peer, recorded) + 1
      invariant start <= r.Cursor(peer, recorded) < log.head
      invariant handshake.Some? ==> ValidHandshake(handshake.value)
      invariant Carries(stream, bs, log.history, start, r.Cursor(peer, recorded))
      decreases log.head - r.Cursor(peer, recorded)
    {
      ghost var upTo := r.Cursor(peer, recorded);
      var raw := r.SendNext(log, peer, recorded);
      stream, bs := WriteBatch(
        stream, raw, from, handshake, bs, log.history, entries, start, upTo, r.Cursor(peer, recorded));
      handshake := None;
    }
  }

  lemma CarriedIsHanded(stream: Bytes, bs: seq<Batch>, history: seq<Bytes>, entries: seq<LogEntry>, start: nat)
    requires Holds(history, entries) && Carries(stream, bs, history, start, |history|)
    ensures Handed(stream) <= Normals(entries[start..])
    ensures Handed(stream) == Normals(entries[start..]) <==> |stream| <= CONNECTION_LIMIT
  {
    EndToEnd(bs, history, entries, start, |history|);
    assert entries[start..|history|] == entries[start..];
  }

  /** While sends succeed and nothing is appended, a peer that was not lapped decodes a first
      part of the entries it was owed and hands them to the merge, in order. They are all of
      them exactly when the backlog fits within what a server reads from one connection, while
      the cursor is at the head either way. */
  method ShipBacklog(
    r: Replicator, log: DeltaLog, peer: string, recorded: nat, from: Bytes, h: Handshake, ghost entries: seq<LogEntry>)
    returns (stream: Bytes)
    requires log.Valid() && AllReadable(log.Contents(), log.history) && Holds(log.history, entries)
    requires Earliest(log.head, log.capacity) <= r.Cursor(peer, recorded) + 1 <= log.head
    requires Sized(from) && ValidHandshake(h)
    modifies r
    ensures r.Cursor(peer, recorded) == log.head - 1
    ensures Handed(stream) <= Normals(entries[old(r.Cursor(peer, recorded))..])
    ensures Handed(stream) == Normals(entries[old(r.Cursor(peer, recorded))..]) <==> |stream| <= CONNECTION_LIMIT
  {
    ghost var start, bs := r.Cursor(peer, recorded), [];
    stream, bs := ShipAll(r, log, peer, recorded, from, h, entries);
    CarriedIsHanded(stream, bs, log.history, entries, start);
  }
}
