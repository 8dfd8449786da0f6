/** Kinds of entries, each encoded under the sequence number it is appended with: exactly
    when a delta log never loses a live one. The losing runs use entries of the kind only,
    and go on until sequence numbers take their full nine bytes. */
module EntryBounds {
  import opened Wrappers
  import opened MessagePack
  import opened DeltaLog
  import opened LogBounds

  // ---------------------------------------------------------------- runs of numbered appends

  /** What is appended for x under a sequence number. */
  type Recorder<!T> = (T, nat) -> Piece

  function PiecesOf<T>(xs: seq<T>, rec: Recorder<T>): seq<Piece> {
    seq(|xs|, i requires 0 <= i < |xs| => rec(xs[i], i + 1))
  }

  function RingsOf<T>(capacity: nat, bufCap: nat, xs: seq<T>, rec: Recorder<T>): (r: Rings)
    requires capacity > 0
    ensures WellFormed(r) && |r.index| == capacity && |r.data| == bufCap && r.head == |xs| + 1
  {
    Fill(Blank(capacity, bufCap), PiecesOf(xs, rec))
  }

  lemma RingsOneMore<T>(capacity: nat, bufCap: nat, xs: seq<T>, rec: Recorder<T>, x: T)
    requires capacity > 0
    ensures var p := rec(x, |xs| + 1);
            && RingsOf(capacity, bufCap, xs + [x], rec) == Appended(RingsOf(capacity, bufCap, xs, rec), p.sz, p.out)
            && Outs(PiecesOf(xs + [x], rec)) == Outs(PiecesOf(xs, rec)) + [p.out]
  {
    var p := rec(x, |xs| + 1);
    assert PiecesOf(xs + [x], rec) == PiecesOf(xs, rec) + [p];
    FillOneMore(Blank(capacity, bufCap), PiecesOf(xs, rec), p);
  }

  /** From sequence number 2^32 on, x takes l bytes, and its estimate is always sz. */
  ghost predicate Takes<T>(rec: Recorder<T>, x: T, l: nat, sz: nat) {
    && (forall n :: 0 < n < TWO64 ==> rec(x, n).sz == sz && 0 < |rec(x, n).out| <= sz)
    && (forall n :: TWO32 <= n < TWO64 ==> |rec(x, n).out| == l)
  }

  function Copies<T>(x: T, n: nat): seq<T> { seq(n, _ => x) }

  lemma CopiesOneMore<T>(x: T, n: nat)
    ensures Copies(x, n + 1) == Copies(x, n) + [x]
  {
  }

  lemma {:induction false} CopiesInside<T>(capacity: nat, bufCap: nat, rec: Recorder<T>, x: T, l: nat, sz: nat, n: nat)
    requires capacity > 0 && Takes(rec, x, l, sz) && sz <= bufCap && n < TWO64 - 1
    ensures RingsOf(capacity, bufCap, Copies(x, n), rec).bufHead <= bufCap
  {
    if n > 0 {
      CopiesInside(capacity, bufCap, rec, x, l, sz, n - 1);
      CopiesOneMore(x, n - 1);
      RingsOneMore(capacity, bufCap, Copies(x, n - 1), rec, x);
      var p := rec(x, n);
      BufHeadInside(RingsOf(capacity, bufCap, Copies(x, n - 1), rec), p.sz, p.out);
    }
  }

  /** Enough appends bring the write position so close to the end that the next one wraps. */
  lemma {:induction false} Edge<T>(
    capacity: nat, bufCap: nat, rec: Recorder<T>, x: T, l: nat, sz: nat, n: nat, limit: int) returns (n': nat)
    requires capacity > 0 && Takes(rec, x, l, sz) && 0 < l && sz <= bufCap && TWO32 <= n && limit < TWO64 - 1
    requires var b := RingsOf(capacity, bufCap, Copies(x, n), rec).bufHead; b <= bufCap && n + bufCap - b <= limit
    ensures n <= n' <= limit
    ensures var b := RingsOf(capacity, bufCap, Copies(x, n'), rec).bufHead; b <= bufCap < b + sz
    decreases limit - n
  {
    var r := RingsOf(capacity, bufCap, Copies(x, n), rec);
    if r.bufHead + sz > bufCap {
      n' := n;
    } else {
      CopiesOneMore(x, n);
      RingsOneMore(capacity, bufCap, Copies(x, n), rec, x);
      assert rec(x, n + 1).sz == sz && |rec(x, n + 1).out| == l;
      n' := Edge(capacity, bufCap, rec, x, l, sz, n + 1, limit);
    }
  }

  // ---------------------------------------------------------------- a run that loses an entry

  /** The largest number of entries of l bytes, up to a limit, after which one estimated at m
      still fits, with a pad of l - 1 bytes before them. */
  function Fitting(limit: nat, l: nat, m: nat, bufCap: nat): (k: nat)
    requires limit > 0 && l + m <= bufCap + 1
    ensures 0 < k <= limit && Times(k, l) + m <= bufCap + 1
    ensures k == limit || Times(k + 1, l) + m > bufCap + 1
  {
    assert Times(1, l) == l;
    if limit == 1 || Times(limit, l) + m <= bufCap + 1 then limit else Fitting(limit - 1, l, m, bufCap)
  }

  lemma {:induction false} TimesGrows(j: nat, k: nat, l: nat)
    requires j <= k
    ensures Times(j, l) <= Times(k, l)
  {
    if j < k {
      TimesGrows(j, k - 1, l);
    }
  }

  /** A shorter entry that wraps leaves the write position at its length. */
  lemma PadWraps<T>(capacity: nat, bufCap: nat, rec: Recorder<T>, xs: seq<T>, x: T, l: nat, sz: nat)
    requires capacity > 0 && Takes(rec, x, l, sz) && TWO32 <= |xs| < TWO64 - 1
    requires RingsOf(capacity, bufCap, xs, rec).bufHead + sz > bufCap
    ensures RingsOf(capacity, bufCap, xs + [x], rec).bufHead == l
  {
    RingsOneMore(capacity, bufCap, xs, rec, x);
    assert rec(x, |xs| + 1).sz == sz && |rec(x, |xs| + 1).out| == l;
  }

  /** Entries behind one another after a pad: where the first of them lies. */
  lemma {:induction false} RowPlaces<T>(
    capacity: nat, bufCap: nat, rec: Recorder<T>, xs: seq<T>, x: T, p: nat, l: nat, m: nat, j: nat)
    requires 0 < j < capacity && Takes(rec, x, l, m) && TWO32 <= |xs| && |xs| + j < TWO64 - 1
    requires RingsOf(capacity, bufCap, xs, rec).bufHead == p && p + Times(j - 1, l) + m <= bufCap
    ensures var r := RingsOf(capacity, bufCap, xs + Copies(x, j), rec);
            r.bufHead == p + Times(j, l) && Slot(r, |xs| + 1) == EntryInfo(p, l)
  {
    var before := xs + Copies(x, j - 1);
    CopiesOneMore(x, j - 1);
    assert xs + Copies(x, j) == before + [x];
    RingsOneMore(capacity, bufCap, before, rec, x);
    var r, piece := RingsOf(capacity, bufCap, before, rec), rec(x, |before| + 1);
    assert piece.sz == m && |piece.out| == l;
    if j == 1 {
      assert before == xs;
    } else {
      TimesGrows(j - 2, j - 1, l);
      RowPlaces(capacity, bufCap, rec, xs, x, p, l, m, j - 1);
      AppendsElsewhere(r, m, piece.out, |xs| + 1, EntryInfo(p, l));
    }
    AppendsHere(r, m, piece.out);
  }

  /** An entry that wraps reaches into one that begins at p; if the bytes differ there, the
      entry is not readable any more. */
  lemma WrapSpoils(r: Rings, history: seq<Bytes>, sz: nat, out: Bytes, s: nat, p: nat, l: nat)
    requires WellFormed(r) && r.head == |history| + 1 && 1 <= s && r.head - |r.index| < s < r.head
    requires |out| <= sz <= |r.data| < r.bufHead + sz && Slot(r, s) == EntryInfo(p, l) && p < |out| && p + l <= |r.data|
    requires l > 0 && |history[s - 1]| == l && out[p] != history[s - 1][0]
    ensures !AllReadable(Appended(r, sz, out), history + [out])
  {
    WrapOverwrites(r, sz, out, s);
    NotReadable(Appended(r, sz, out), history + [out], s);
  }

  lemma RowOut<T>(rec: Recorder<T>, xs: seq<T>, x: T, k: nat)
    requires k > 0
    ensures Outs(PiecesOf(xs + Copies(x, k), rec))[|xs|] == rec(x, |xs| + 1).out
  {
    assert (xs + Copies(x, k))[|xs|] == x;
  }

  lemma NextSpoils<T>(
    capacity: nat, bufCap: nat, rec: Recorder<T>, row: seq<T>, x: T, s: nat, p: nat, l: nat, m: nat)
    requires capacity > 0 && 1 <= s <= |row| && |row| + 1 < s + capacity && p < l <= m <= bufCap && p + l <= bufCap
    requires rec(x, |row| + 1).sz == m && |rec(x, |row| + 1).out| == l && |Outs(PiecesOf(row, rec))[s - 1]| == l
    requires Slot(RingsOf(capacity, bufCap, row, rec), s) == EntryInfo(p, l)
    requires RingsOf(capacity, bufCap, row, rec).bufHead + m > bufCap
    requires rec(x, |row| + 1).out[p] != Outs(PiecesOf(row, rec))[s - 1][0]
    ensures !AllReadable(RingsOf(capacity, bufCap, row + [x], rec), Outs(PiecesOf(row + [x], rec)))
  {
    RingsOneMore(capacity, bufCap, row, rec, x);
    WrapSpoils(RingsOf(capacity, bufCap, row, rec), Outs(PiecesOf(row, rec)), m, rec(x, |row| + 1).out, s, p, l);
  }

  /** One more entry wraps, and its last byte is written over the first byte of the first,
      which is still live. */
  lemma RowOverruns<T>(
    capacity: nat, bufCap: nat, rec: Recorder<T>, xs: seq<T>, x: T, p: nat, l: nat, m: nat, k: nat)
    requires 0 < k < capacity && Takes(rec, x, l, m) && TWO32 <= |xs| && |xs| + k + 1 < TWO64 - 1
    requires RingsOf(capacity, bufCap, xs, rec).bufHead == p < l <= m <= bufCap
    requires p + Times(k - 1, l) + m <= bufCap < p + Times(k, l) + m
    requires rec(x, |xs| + k + 1).out[p] != rec(x, |xs| + 1).out[0]
    ensures var ys := xs + Copies(x, k) + [x];
            !AllReadable(RingsOf(capacity, bufCap, ys, rec), Outs(PiecesOf(ys, rec)))
  {
    RowPlaces(capacity, bufCap, rec, xs, x, p, l, m, k);
    RowOut(rec, xs, x, k);
    FirstInside(p, l, m, k, bufCap);
    NextSpoils(capacity, bufCap, rec, xs + Copies(x, k), x, |xs| + 1, p, l, m);
  }

  lemma FirstInside(p: nat, l: nat, m: nat, k: nat, bufCap: nat)
    requires k > 0 && l <= m && p + Times(k - 1, l) + m <= bufCap
    ensures p + l <= bufCap
  {
  }

  /** Two large entries one after the other at the start of the buffer. */
  lemma WrapsTwice<T>(capacity: nat, bufCap: nat, rec: Recorder<T>, xs: seq<T>, x: T, l: nat, m: nat)
    requires capacity > 1 && Takes(rec, x, l, m) && TWO32 <= |xs| < TWO64 - 2 && l <= m <= bufCap < l + m
    requires RingsOf(capacity, bufCap, xs, rec).bufHead + m > bufCap
    requires rec(x, |xs| + 1).out != rec(x, |xs| + 2).out
    ensures var ys := xs + [x] + [x];
            !AllReadable(RingsOf(capacity, bufCap, ys, rec), Outs(PiecesOf(ys, rec)))
  {
    var r0, r1 := RingsOf(capacity, bufCap, xs, rec), RingsOf(capacity, bufCap, xs + [x], rec);
    var first, second := rec(x, |xs| + 1), rec(x, |xs| + 2);
    assert first.sz == m && |first.out| == l;
    assert second.sz == m && |second.out| == l;
    RingsOneMore(capacity, bufCap, xs, rec, x);
    RingsOneMore(capacity, bufCap, xs + [x], rec, x);
    SlotsAfter(r0, m, first.out, |xs| + 1);
    WholeOverwritten(r1, m, second.out, |xs| + 1);
    NotReadable(RingsOf(capacity, bufCap, xs + [x] + [x], rec), Outs(PiecesOf(xs + [x] + [x], rec)), |xs| + 1);
  }

  lemma WholeOverwritten(r: Rings, sz: nat, out: Bytes, s: nat)
    requires WellFormed(r) && r.head - |r.index| < s < r.head && |out| <= sz <= |r.data| < r.bufHead + sz
    requires Slot(r, s) == EntryInfo(0, |out|)
    ensures InBounds(Appended(r, sz, out), s) && Stored(Appended(r, sz, out), s) == out
  {
    SlotsAfter(r, sz, out, s);
    assert Appended(r, sz, out).data == Overwrite(r.data, 0, out);
  }

  /** The encodings of x under different numbers differ, and none ends as another begins. */
  ghost predicate Marked<T>(rec: Recorder<T>, x: T, l: nat)
    requires 0 < l && forall n :: TWO32 <= n < TWO64 ==> |rec(x, n).out| == l
  {
    && (forall n, n' :: TWO32 <= n < n' < TWO64 ==> rec(x, n).out != rec(x, n').out)
    && (forall n, n' :: TWO32 <= n < TWO64 && TWO32 <= n' < TWO64 ==> rec(x, n).out[l - 1] != rec(x, n').out[0])
  }

  /** What a class of entries needs to have for the bound to be reached: a largest entry x
      of l bytes, estimated at m, and one y that is a byte shorter. */
  ghost predicate Reached<T>(rec: Recorder<T>, x: T, y: T, l: nat, m: nat, sz: nat) {
    1 < l && sz <= m && Takes(rec, x, l, m) && Takes(rec, y, l - 1, sz) && Marked(rec, x, l)
  }

  lemma AtEdge<T>(capacity: nat, bufCap: nat, rec: Recorder<T>, y: T, l: nat, sz: nat) returns (n: nat)
    requires capacity > 0 && bufCap < TWO63 && Takes(rec, y, l, sz) && 0 < l && sz <= bufCap
    ensures TWO32 <= n <= TWO32 + bufCap
    ensures RingsOf(capacity, bufCap, Copies(y, n), rec).bufHead + sz > bufCap
  {
    CopiesInside(capacity, bufCap, rec, y, l, sz, TWO32);
    n := Edge(capacity, bufCap, rec, y, l, sz, TWO32, TWO32 + bufCap);
  }

  lemma LosesBehindPad<T>(
    capacity: nat, bufCap: nat, rec: Recorder<T>, x: T, y: T, l: nat, m: nat, sz: nat, n: nat, k: nat)
    requires capacity > 1 && capacity + bufCap < TWO63 && Reached(rec, x, y, l, m, sz) && l <= m <= bufCap
    requires TWO32 <= n <= TWO32 + bufCap && RingsOf(capacity, bufCap, Copies(y, n), rec).bufHead + sz > bufCap
    requires 0 < k < capacity && Times(k, l) + m <= bufCap + 1 < Times(k + 1, l) + m
    ensures var ys := Copies(y, n) + [y] + Copies(x, k) + [x];
            !AllReadable(RingsOf(capacity, bufCap, ys, rec), Outs(PiecesOf(ys, rec)))
  {
    PadWraps(capacity, bufCap, rec, Copies(y, n), y, l - 1, sz);
    assert Times(k, l) == Times(k - 1, l) + l && Times(k + 1, l) == Times(k, l) + l;
    RowOverruns(capacity, bufCap, rec, Copies(y, n) + [y], x, l - 1, l, m, k);
  }

  lemma LosesAtStart<T>(
    capacity: nat, bufCap: nat, rec: Recorder<T>, x: T, y: T, l: nat, m: nat, sz: nat, n: nat)
    requires capacity > 1 && capacity + bufCap < TWO63 && Reached(rec, x, y, l, m, sz) && l <= m <= bufCap < l + m
    requires TWO32 <= n <= TWO32 + bufCap && RingsOf(capacity, bufCap, Copies(y, n), rec).bufHead + sz > bufCap
    ensures var ys := Copies(y, n) + [x] + [x];
            !AllReadable(RingsOf(capacity, bufCap, ys, rec), Outs(PiecesOf(ys, rec)))
  {
    WrapsTwice(capacity, bufCap, rec, Copies(y, n), x, l, m);
  }

  lemma FittingFails(capacity: nat, l: nat, m: nat, bufCap: nat)
    requires capacity > 1 && l + m <= bufCap + 1 < Times(capacity, l) + m
    ensures var k := Fitting(capacity - 1, l, m, bufCap);
            0 < k < capacity && Times(k, l) + m <= bufCap + 1 < Times(k + 1, l) + m
  {
  }

  /** Two entries suffice to lose one of them that is live, whenever the room is too small. */
  lemma TwoEntriesLose<T>(
    capacity: nat, bufCap: nat, rec: Recorder<T>, x: T, y: T, l: nat, m: nat, sz: nat) returns (xs: seq<T>)
    requires capacity > 1 && capacity + bufCap < TWO63 && Reached(rec, x, y, l, m, sz)
    requires l <= m <= bufCap && Times(capacity, l) + m > bufCap + 1
    ensures |xs| < TWO64 - 1 && forall i :: 0 <= i < |xs| ==> xs[i] == x || xs[i] == y
    ensures !AllReadable(RingsOf(capacity, bufCap, xs, rec), Outs(PiecesOf(xs, rec)))
  {
    var n := AtEdge(capacity, bufCap, rec, y, l - 1, sz);
    if l + m > bufCap + 1 {
      LosesAtStart(capacity, bufCap, rec, x, y, l, m, sz, n);
      xs := Copies(y, n) + [x] + [x];
    } else {
      FittingFails(capacity, l, m, bufCap);
      var k := Fitting(capacity - 1, l, m, bufCap);
      LosesBehindPad(capacity, bufCap, rec, x, y, l, m, sz, n, k);
      xs := Copies(y, n) + [y] + Copies(x, k) + [x];
    }
  }

  // ---------------------------------------------------------------- classes of entries

  /** Whatever entries of a kind are appended, every live one is stored whole. */
  ghost predicate AlwaysKept<T(!new)>(capacity: nat, bufCap: nat, rec: Recorder<T>, kind: T -> bool)
    requires capacity > 0
  {
    forall xs: seq<T> :: AllOf(xs, kind) ==> AllReadable(RingsOf(capacity, bufCap, xs, rec), Outs(PiecesOf(xs, rec)))
  }

  /** A run of appends of one kind; sequence numbers have 64 bits. */
  predicate AllOf<T>(xs: seq<T>, kind: T -> bool) {
    |xs| < TWO64 - 1 && forall i :: 0 <= i < |xs| ==> kind(xs[i])
  }

  /** No entry of the kind takes more than l bytes or is estimated at more than m. */
  ghost predicate Within<T(!new)>(rec: Recorder<T>, kind: T -> bool, l: nat, m: nat) {
    forall x: T, n: nat :: kind(x) && 0 < n < TWO64 ==> Fits(rec(x, n), l, m)
  }

  lemma PiecesFit<T(!new)>(rec: Recorder<T>, kind: T -> bool, l: nat, m: nat, xs: seq<T>)
    requires Within(rec, kind, l, m) && AllOf(xs, kind)
    ensures AllFit(PiecesOf(xs, rec), l, m)
  {
  }

  lemma WithinIsKept<T(!new)>(capacity: nat, bufCap: nat, rec: Recorder<T>, kind: T -> bool, l: nat, m: nat)
    requires capacity > 0 && Within(rec, kind, l, m) && Roomy(capacity, bufCap, l, m)
    ensures AlwaysKept(capacity, bufCap, rec, kind)
  {
    RoomyIsReadable(capacity, bufCap, l, m);
    forall xs: seq<T> | AllOf(xs, kind)
      ensures AllReadable(RingsOf(capacity, bufCap, xs, rec), Outs(PiecesOf(xs, rec)))
    {
      PiecesFit(rec, kind, l, m, xs);
    }
  }

  lemma CrampedLoses<T(!new)>(
    capacity: nat, bufCap: nat, rec: Recorder<T>, kind: T -> bool, x: T, y: T, l: nat, m: nat, sz: nat)
    requires capacity > 0 && capacity + bufCap < TWO63 && l <= m && !Roomy(capacity, bufCap, l, m)
    requires kind(x) && kind(y) && Reached(rec, x, y, l, m, sz) && rec(x, 1).out != [] && rec(x, 1).out[0] != 0
    ensures !AlwaysKept(capacity, bufCap, rec, kind)
  {
    if m > bufCap {
      NeverStored(capacity, bufCap, rec(x, 1));
      assert PiecesOf([x], rec) == [rec(x, 1)];
      assert AllOf([x], kind);
    } else {
      var xs := TwoEntriesLose(capacity, bufCap, rec, x, y, l, m, sz);
      assert AllOf(xs, kind);
    }
  }

  /** A kind of entries whose bounds are reached is always kept exactly when the buffer is
      roomy for those bounds. */
  lemma KeptExactlyWhenRoomy<T(!new)>(
    capacity: nat, bufCap: nat, rec: Recorder<T>, kind: T -> bool, x: T, y: T, l: nat, m: nat, sz: nat)
    requires capacity > 0 && capacity + bufCap < TWO63 && l <= m && Within(rec, kind, l, m)
    requires kind(x) && kind(y) && Reached(rec, x, y, l, m, sz) && rec(x, 1).out != [] && rec(x, 1).out[0] != 0
    ensures AlwaysKept(capacity, bufCap, rec, kind) <==> Roomy(capacity, bufCap, l, m)
  {
    if Roomy(capacity, bufCap, l, m) {
      WithinIsKept(capacity, bufCap, rec, kind, l, m);
    } else {
      CrampedLoses(capacity, bufCap, rec, kind, x, y, l, m, sz);
    }
  }
}
