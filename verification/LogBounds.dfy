/** How large the entries of a delta log may be: exactly when its byte ring never loses a
    live entry, and what happens when it does. */
module LogBounds {
  import opened Wrappers
  import opened MessagePack
  import opened Wire
  import opened DeltaLog

  // ---------------------------------------------------------------- runs of appends

  /** An append: the estimated size and the bytes. */
  datatype Piece = Piece(sz: nat, out: Bytes)

  /** The bytes are at most l, their estimate covers them and is at most m. */
  predicate Fits(p: Piece, l: nat, m: nat) { 0 < |p.out| <= l && |p.out| <= p.sz <= m }

  predicate AllFit(ps: seq<Piece>, l: nat, m: nat) { forall i :: 0 <= i < |ps| ==> Fits(ps[i], l, m) }

  function Fill(r: Rings, ps: seq<Piece>): (r': Rings)
    requires WellFormed(r)
    ensures WellFormed(r') && |r'.index| == |r.index| && |r'.data| == |r.data| && r'.head == r.head + |ps|
  {
    if ps == [] then r
    else
      var last := |ps| - 1;
      Appended(Fill(r, ps[..last]), ps[last].sz, ps[last].out)
  }

  ghost function Outs(ps: seq<Piece>): seq<Bytes> { seq(|ps|, i requires 0 <= i < |ps| => ps[i].out) }

  /** Whatever is appended, of at most l bytes estimated at no more than m, every live entry
      is stored whole. */
  ghost predicate AlwaysReadable(capacity: nat, bufCap: nat, l: nat, m: nat)
    requires capacity > 0
  {
    forall ps :: AllFit(ps, l, m) ==> AllReadable(Fill(Blank(capacity, bufCap), ps), Outs(ps))
  }

  lemma FillOneMore(r: Rings, ps: seq<Piece>, p: Piece)
    requires WellFormed(r)
    ensures Fill(r, ps + [p]) == Appended(Fill(r, ps), p.sz, p.out)
    ensures Outs(ps + [p]) == Outs(ps) + [p.out]
  {
    assert (ps + [p])[..|ps|] == ps;
  }

  // ---------------------------------------------------------------- enough room

  lemma {:induction false} FillStaysIntact(capacity: nat, bufCap: nat, l: nat, m: nat, ps: seq<Piece>)
    requires capacity > 0 && Times(capacity, l) + m <= bufCap + 1 && AllFit(ps, l, m)
    ensures Intact(Fill(Blank(capacity, bufCap), ps), Outs(ps), l, m)
  {
    if ps != [] {
      var n := |ps| - 1;
      FillStaysIntact(capacity, bufCap, l, m, ps[..n]);
      FillOneMore(Blank(capacity, bufCap), ps[..n], ps[n]);
      assert ps[..n] + [ps[n]] == ps;
      AppendKeepsIntact(Fill(Blank(capacity, bufCap), ps[..n]), Outs(ps[..n]), l, m, ps[n].sz, ps[n].out);
    }
  }

  lemma BufHeadInside(r: Rings, sz: nat, out: Bytes)
    requires WellFormed(r) && |out| <= sz <= |r.data|
    ensures Appended(r, sz, out).bufHead <= |r.data|
  {
  }

  /** With one slot only the last entry is live. */
  lemma {:induction false} OneSlotStaysReadable(bufCap: nat, ps: seq<Piece>)
    requires AllFit(ps, bufCap, bufCap)
    ensures var r := Fill(Blank(1, bufCap), ps); AllReadable(r, Outs(ps)) && r.bufHead <= bufCap
  {
    if ps != [] {
      var n := |ps| - 1;
      OneSlotStaysReadable(bufCap, ps[..n]);
      FillOneMore(Blank(1, bufCap), ps[..n], ps[n]);
      assert ps[..n] + [ps[n]] == ps;
      NewSlotHolds(Fill(Blank(1, bufCap), ps[..n]), bufCap, ps[n].sz, ps[n].out);
    }
  }

  // ---------------------------------------------------------------- too little room

  function Same(n: nat, b: Byte): Bytes { seq(n, _ => b) }

  /** The largest number of entries, up to a limit, that fit behind one another. */
  function Row(limit: nat, l: nat, bufCap: nat): (c: nat)
    ensures c <= limit && Times(c, l) <= bufCap && (c == limit || Times(c + 1, l) > bufCap)
  {
    if Times(limit, l) <= bufCap then limit else Row(limit - 1, l, bufCap)
  }

  /** A pad of p bytes and k entries of l bytes. */
  function Script(p: nat, l: nat, k: nat): seq<Piece> {
    if k > 0 then Script(p, l, k - 1) + [Piece(l, Same(l, 1))]
    else if p == 0 then []
    else [Piece(p, Same(p, 0))]
  }

  /** The sequence number of the first entry after the pad. */
  function First(p: nat): nat { if p == 0 then 1 else 2 }

  lemma {:induction false} ScriptFits(p: nat, l: nat, m: nat, k: nat)
    requires p < l <= m
    ensures AllFit(Script(p, l, k), l, m) && |Script(p, l, k)| == First(p) - 1 + k
    ensures forall i :: First(p) - 1 <= i < |Script(p, l, k)| ==> Script(p, l, k)[i] == Piece(l, Same(l, 1))
  {
    if k > 0 {
      ScriptFits(p, l, m, k - 1);
    }
  }

  /** An append that fits goes to the write position. */
  lemma AppendsHere(r: Rings, sz: nat, out: Bytes)
    requires WellFormed(r) && r.bufHead + sz <= |r.data|
    ensures var r' := Appended(r, sz, out);
            r'.bufHead == r.bufHead + |out| && Slot(r', r.head) == EntryInfo(r.bufHead, |out|)
  {
    SlotsAfter(r, sz, out, r.head);
  }

  /** It leaves the slots of the other live entries alone. */
  lemma AppendsElsewhere(r: Rings, sz: nat, out: Bytes, s: nat, info: EntryInfo)
    requires WellFormed(r) && r.head - |r.index| < s < r.head && Slot(r, s) == info
    ensures Slot(Appended(r, sz, out), s) == info
  {
    SlotsAfter(r, sz, out, s);
  }

  lemma PadPlaces(capacity: nat, bufCap: nat, p: nat, l: nat)
    requires capacity > 0 && p < l && p <= bufCap
    ensures Fill(Blank(capacity, bufCap), Script(p, l, 0)).bufHead == p
  {
    if p > 0 {
      var piece := Piece(p, Same(p, 0));
      FillOneMore(Blank(capacity, bufCap), [], piece);
      assert [] + [piece] == [piece];
      AppendsHere(Blank(capacity, bufCap), p, piece.out);
    }
  }

  /** The entries lie behind one another, the first of them at p. */
  lemma {:induction false} ScriptPlaces(capacity: nat, bufCap: nat, p: nat, l: nat, k: nat)
    requires 0 < k < capacity && p < l && p + Times(k, l) <= bufCap
    ensures var r := Fill(Blank(capacity, bufCap), Script(p, l, k));
            r.bufHead == p + Times(k, l) && r.head == First(p) + k && Slot(r, First(p)) == EntryInfo(p, l)
  {
    var piece, before := Piece(l, Same(l, 1)), Fill(Blank(capacity, bufCap), Script(p, l, k - 1));
    ScriptFits(p, l, l, k - 1);
    FillOneMore(Blank(capacity, bufCap), Script(p, l, k - 1), piece);
    if k == 1 {
      PadPlaces(capacity, bufCap, p, l);
    } else {
      ScriptPlaces(capacity, bufCap, p, l, k - 1);
      AppendsElsewhere(before, l, piece.out, First(p), EntryInfo(p, l));
    }
    AppendsHere(before, l, piece.out);
  }

  /** A write that wraps to the start of the buffer overwrites an entry that begins there,
      and an entry that was appended less than `capacity` appends ago is still live. */
  lemma WrapOverwrites(r: Rings, sz: nat, out: Bytes, s: nat)
    requires WellFormed(r) && r.head - |r.index| < s < r.head && |out| <= sz <= |r.data| < r.bufHead + sz
    requires Slot(r, s).offset < |out| && Slot(r, s).offset + Slot(r, s).length <= |r.data| && Slot(r, s).length > 0
    ensures var r' := Appended(r, sz, out);
            InBounds(r', s) && Stored(r', s) != [] && Stored(r', s)[0] == out[Slot(r, s).offset]
  {
    SlotsAfter(r, sz, out, s);
    assert Appended(r, sz, out).data == Overwrite(r.data, 0, out);
  }

  lemma NotReadable(r: Rings, history: seq<Bytes>, s: nat)
    requires WellFormed(r) && r.head == |history| + 1 && Earliest(r.head, |r.index|) <= s < r.head
    requires !Readable(r, history, s)
    ensures !AllReadable(r, history)
  {
  }

  /** One more entry, estimated at m, wraps and is written over the first, still live. */
  lemma Overruns(capacity: nat, bufCap: nat, p: nat, l: nat, m: nat, k: nat)
    requires 0 < k < capacity && p < l <= m <= bufCap && p + Times(k, l) <= bufCap < p + Times(k, l) + m
    ensures var ps := Script(p, l, k) + [Piece(m, Same(l, 2))];
            AllFit(ps, l, m) && !AllReadable(Fill(Blank(capacity, bufCap), ps), Outs(ps))
  {
    var ps, piece := Script(p, l, k), Piece(m, Same(l, 2));
    var blank, s := Blank(capacity, bufCap), First(p);
    ScriptFits(p, l, m, k);
    ScriptPlaces(capacity, bufCap, p, l, k);
    FirstFits(p, l, k, bufCap);
    FillOneMore(blank, ps, piece);
    WrapOverwrites(Fill(blank, ps), m, piece.out, s);
    FirstOut(p, l, k, piece);
    NotReadable(Fill(blank, ps + [piece]), Outs(ps + [piece]), s);
  }

  lemma FirstFits(p: nat, l: nat, k: nat, bufCap: nat)
    requires k > 0 && p + Times(k, l) <= bufCap
    ensures p + l <= bufCap
  {
  }

  lemma FirstOut(p: nat, l: nat, k: nat, piece: Piece)
    requires k > 0 && p < l
    ensures |Script(p, l, k)| >= First(p) && Outs(Script(p, l, k) + [piece])[First(p) - 1] == Same(l, 1)
  {
    ScriptFits(p, l, l, k);
  }

  /** An entry whose estimate exceeds the buffer is not stored. */
  lemma NeverStored(capacity: nat, bufCap: nat, p: Piece)
    requires capacity > 0 && 0 < |p.out| && p.sz > bufCap && p.out[0] != 0
    ensures !AllReadable(Fill(Blank(capacity, bufCap), [p]), Outs([p]))
  {
    FillOneMore(Blank(capacity, bufCap), [], p);
    assert [] + [p] == [p];
    SlotsAfter(Blank(capacity, bufCap), p.sz, p.out, 1);
    var r := Fill(Blank(capacity, bufCap), [p]);
    if InBounds(r, 1) {
      assert Stored(r, 1)[0] == 0;
    }
    NotReadable(r, Outs([p]), 1);
  }

  /** A run that loses a live entry, whenever there is too little room. */
  lemma LosesEntry(capacity: nat, bufCap: nat, l: nat, m: nat) returns (ps: seq<Piece>)
    requires capacity > 0 && 0 < l <= m && !Roomy(capacity, bufCap, l, m)
    ensures AllFit(ps, l, m) && !AllReadable(Fill(Blank(capacity, bufCap), ps), Outs(ps))
  {
    if m > bufCap {
      ps := [Piece(m, Same(1, 1))];
      NeverStored(capacity, bufCap, ps[0]);
    } else {
      var k := Row(capacity - 1, l, bufCap);
      var p := Max(0, bufCap + 1 - m - Times(k, l));
      assert Times(1, l) == l && Times(k + 1, l) == Times(k, l) + l;
      assert Times(capacity, l) == Times(capacity - 1, l) + l;
      Overruns(capacity, bufCap, p, l, m, k);
      ps := Script(p, l, k) + [Piece(m, Same(l, 2))];
    }
  }

  /** Room for `capacity` entries of l bytes and one estimate of m, less one byte; with one
      slot, for one estimate. */
  predicate Roomy(capacity: nat, bufCap: nat, l: nat, m: nat) {
    if capacity == 1 then m <= bufCap else Times(capacity, l) + m <= bufCap + 1
  }

  lemma RoomyIsReadable(capacity: nat, bufCap: nat, l: nat, m: nat)
    requires capacity > 0 && Roomy(capacity, bufCap, l, m)
    ensures AlwaysReadable(capacity, bufCap, l, m)
  {
    forall ps | AllFit(ps, l, m) ensures AllReadable(Fill(Blank(capacity, bufCap), ps), Outs(ps)) {
      if capacity == 1 {
        OneSlotStaysReadable(bufCap, ps);
      } else {
        FillStaysIntact(capacity, bufCap, l, m, ps);
      }
    }
  }

  /** For arbitrary bytes of at most l, estimated at no more than m: the byte ring never
      loses a live entry, whatever is appended, exactly when it is roomy. */
  lemma ReadableExactlyWhenRoomy(capacity: nat, bufCap: nat, l: nat, m: nat)
    requires capacity > 0 && 0 < l <= m
    ensures AlwaysReadable(capacity, bufCap, l, m) <==> Roomy(capacity, bufCap, l, m)
  {
    if Roomy(capacity, bufCap, l, m) {
      RoomyIsReadable(capacity, bufCap, l, m);
    } else {
      var ps := LosesEntry(capacity, bufCap, l, m);
    }
  }

  // ---------------------------------------------------------------- entries that are too large

  /** Bytes written over the start of others leave one of the two a prefix of the other. */
  lemma WrapPrefix(r: Rings, sz: nat, out: Bytes, s: nat)
    requires WellFormed(r) && r.head - |r.index| < s < r.head && |out| <= sz <= |r.data| < r.bufHead + sz
    requires Slot(r, s).offset == 0 && Slot(r, s).length <= |r.data|
    ensures var r' := Appended(r, sz, out);
            InBounds(r', s) && (Stored(r', s) <= out || out <= Stored(r', s))
  {
    SlotsAfter(r, sz, out, s);
    assert Appended(r, sz, out).data == Overwrite(r.data, 0, out);
  }

  lemma PrefixesAgree(e: LogEntry, f: LogEntry)
    requires ValidEntry(e) && ValidEntry(f) && EncodeEntry(e) <= EncodeEntry(f)
    ensures e.seqNo == f.seqNo
  {
    var rest := EncodeEntry(f)[|EncodeEntry(e)|..];
    assert EncodeEntry(f) + [] == EncodeEntry(f) == EncodeEntry(e) + rest;
    EntryRoundTrip(e, rest);
    EntryRoundTrip(f, []);
  }

  /** The encoding of an entry is no prefix of the encoding of another sequence number. */
  lemma NoPrefix(e: LogEntry, f: LogEntry)
    requires ValidEntry(e) && ValidEntry(f) && e.seqNo != f.seqNo
    ensures !(EncodeEntry(e) <= EncodeEntry(f))
  {
    if EncodeEntry(e) <= EncodeEntry(f) {
      PrefixesAgree(e, f);
    }
  }

  /** Two entries in a new log of any capacity above 1. When the estimate of the second does
      not fit behind the first, it is written over the first, which is live and lost. */
  method OverwrittenWhileLive(capacity: nat, e: LogEntry, f: LogEntry) returns (log: DeltaLog)
    requires capacity > 1 && ValidEntry(e.(seqNo := 1)) && ValidEntry(f.(seqNo := 2))
    requires EntrySize(e) <= BufferSize(capacity) && EntrySize(f) <= BufferSize(capacity)
    requires |EncodeEntry(e.(seqNo := 1))| + EntrySize(f) > BufferSize(capacity)
    ensures log.Valid() && log.head == 3 && Earliest(log.head, log.capacity) == 1
    ensures log.history == [EncodeEntry(e.(seqNo := 1)), EncodeEntry(f.(seqNo := 2))]
    ensures WellFormed(log.Contents()) && !Readable(log.Contents(), log.history, 1)
  {
    log := new DeltaLog(capacity);
    var first, second := e.(seqNo := 1), f.(seqNo := 2);
    EntryFits(first);
    EntryFits(second);
    ghost var blank := log.Contents();
    var s := log.Append(e, 0, 0);
    SlotsAfter(blank, EntrySize(e), EncodeEntry(first), 1);
    ghost var before := log.Contents();
    s := log.Append(f, 0, 0);
    WrapPrefix(before, EntrySize(f), EncodeEntry(second), 1);
    NoPrefix(first, second);
    NoPrefix(second, first);
  }

  /** An entry that is lost in this way: it needs a key of 230 bytes in a log of two. */
  lemma LongKeySuffices(e: LogEntry)
    requires ValidEntry(e) && |e.key| == 230 && e.nodeID == [] && e.value.None?
    ensures EntrySize(e) == 324 <= BufferSize(2) < |EncodeEntry(e)| + EntrySize(e)
  {
    KeyIsIncluded(e);
  }

  lemma {:induction false} ConcatHolds(xs: seq<Bytes>, i: nat)
    requires i < |xs|
    ensures |xs[i]| <= |Concat(xs)|
  {
    if i > 0 {
      ConcatHolds(xs[1..], i - 1);
    }
  }

  lemma KeyIsIncluded(e: LogEntry)
    requires ValidEntry(e)
    ensures |e.key| <= |EncodeEntry(e)|
  {
    FieldsOfValid(e);
    var fs := FieldsOf(e);
    assert fs[4] == FKey(e.key);
    ConcatHolds(Encoded(fs), 4);
  }

  /** In any log, an entry whose estimate exceeds the buffer is marshalled elsewhere, and
      reading it back panics exactly when its encoding is longer than the buffer. */
  method OversizedEntryPanics(log: DeltaLog, entry: LogEntry, limit: nat, maxBytes: int) returns (r: Option<seq<Bytes>>)
    requires log.Valid() && ValidEntry(entry.(seqNo := log.head)) && limit > 0
    requires log.data.Length < EntrySize(entry) && log.bufHead + EntrySize(entry) < TWO32
    modifies log`head, log`bufHead, log`history, log.index, log.data
    ensures log.data[..] == old(log.data[..])
    ensures r.None? <==> |EncodeEntry(entry.(seqNo := old(log.head)))| > log.data.Length
  {
    ghost var before, e := log.Contents(), entry.(seqNo := log.head);
    EntryFits(e);
    var s := log.Append(entry, 0, 0);
    SlotsAfter(before, EntrySize(entry), EncodeEntry(e), s);
    r := log.GetEntriesRaw(s, limit, maxBytes);
  }
}
