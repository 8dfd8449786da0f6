/** The in-memory delta log of log.go: two coupled rings, one of index slots and one of
    bytes, that must keep the last `capacity` entries of an append-only history. */
module DeltaLog {
  import opened Wrappers
  import opened MessagePack
  import opened Clock
  import opened Wire

  datatype EntryInfo = EntryInfo(offset: nat, length: nat)

  // ---------------------------------------------------------------- arithmetic

  /** k * m, as k steps of m. */
  function Times(k: nat, m: nat): nat {
    if k == 0 then 0 else Times(k - 1, m) + m
  }

  lemma {:induction false} TimesIsProduct(k: nat, m: nat)
    ensures Times(k, m) == k * m
  {
    if k > 0 {
      TimesIsProduct(k - 1, m);
      assert k * m == (k - 1) * m + m;
    }
  }

  lemma {:induction false} TimesAdds(j: nat, k: nat, m: nat)
    ensures Times(j + k, m) == Times(j, m) + Times(k, m)
  {
    if k > 0 {
      TimesAdds(j, k - 1, m);
    }
  }

  /** s % capacity, as repeated subtraction. */
  function SlotOf(s: nat, capacity: nat): (i: nat)
    requires capacity > 0
    ensures i < capacity
  {
    if s < capacity then s else SlotOf(s - capacity, capacity)
  }

  lemma Multiples(d: int, c: int)
    requires c > 0
    ensures d >= 1 ==> d * c >= c
    ensures d <= -1 ==> d * c <= -c
  {
  }

  lemma RemainderIsUnique(s: int, q: int, r: int, c: int)
    requires c > 0 && s == q * c + r && 0 <= r < c
    ensures s % c == r
  {
    var d := s / c - q;
    Multiples(d, c);
    calc {
      d * c;
      (s / c) * c - q * c;
      (s - s % c) - (s - r);
    }
  }

  lemma {:induction false} SlotIsRemainder(s: nat, capacity: nat)
    requires capacity > 0
    ensures SlotOf(s, capacity) == s % capacity
  {
    if s < capacity {
      RemainderIsUnique(s, 0, s, capacity);
    } else {
      SlotIsRemainder(s - capacity, capacity);
      var q, r := (s - capacity) / capacity, (s - capacity) % capacity;
      assert (q + 1) * capacity == q * capacity + capacity;
      RemainderIsUnique(s, q + 1, r, capacity);
    }
  }

  /** Sequence numbers less than `capacity` apart use different slots. */
  lemma {:induction false} SlotsDiffer(s: nat, t: nat, capacity: nat)
    requires s < t < s + capacity
    ensures SlotOf(s, capacity) != SlotOf(t, capacity)
  {
    if s >= capacity {
      SlotsDiffer(s - capacity, t - capacity, capacity);
    }
  }

  // ---------------------------------------------------------------- regions of the byte ring

  /** Where the bytes of sequence number s lie when the next write goes to `bufHead`: in the
      current lap behind it, or in the previous lap far enough ahead that every append
      under which s stays live can still be written in between. */
  predicate Placed(i: EntryInfo, s: nat, head: nat, bufHead: nat, capacity: nat, l: nat)
    requires s < head <= s + capacity
  {
    || (i.offset + i.length <= bufHead && bufHead <= i.offset + Times(head - s, l))
    || bufHead + Times(s + capacity - head, l) <= i.offset
  }

  predicate Disjoint(i: EntryInfo, j: EntryInfo) {
    i.offset + i.length <= j.offset || j.offset + j.length <= i.offset
  }

  /** Where `Append` writes an entry of estimated size sz. */
  function WriteAt(bufHead: nat, sz: nat, bufCap: nat): nat {
    if bufHead + sz > bufCap then 0 else bufHead
  }

  /** A write of at most l bytes, estimated at no more than m, does not touch an entry that
      stays live, and leaves it placed. This is where the size of the buffer matters. */
  lemma WriteIsClear(
    i: EntryInfo, s: nat, head: nat, bufHead: nat, capacity: nat, l: nat, m: nat, bufCap: nat, sz: nat, len: nat)
    requires s < head < s + capacity && Times(capacity, l) + m <= bufCap + 1
    requires i.offset + i.length <= bufCap && Placed(i, s, head, bufHead, capacity, l)
    requires 0 < len <= l && len <= sz <= m
    ensures var start := WriteAt(bufHead, sz, bufCap);
            Disjoint(i, EntryInfo(start, len)) && Placed(i, s, head + 1, start + len, capacity, l)
  {
    var rem := s + capacity - head;
    assert Times(rem, l) == Times(rem - 1, l) + l;
    assert Times(head + 1 - s, l) == Times(head - s, l) + l;
    if bufHead + sz > bufCap {
      assert capacity == rem + (head - s);
      TimesAdds(rem, head - s, l);
    }
  }

  // ---------------------------------------------------------------- the double ring as values

  /** The two rings, the next sequence number and the next write position. */
  datatype Rings = Rings(index: seq<EntryInfo>, data: Bytes, head: nat, bufHead: nat)

  predicate WellFormed(r: Rings) { |r.index| > 0 && r.head > 0 }

  /** Empty rings. */
  function Blank(capacity: nat, bufCap: nat): Rings {
    Rings(seq(capacity, _ => EntryInfo(0, 0)), seq(bufCap, _ => 0), 1, 0)
  }

  lemma BlankIsZeroed(capacity: nat, bufCap: nat)
    ensures var r := Blank(capacity, bufCap);
            && |r.index| == capacity && |r.data| == bufCap && r.head == 1 && r.bufHead == 0
            && (forall i :: 0 <= i < capacity ==> r.index[i].offset == 0 && r.index[i].length == 0)
            && (forall i :: 0 <= i < bufCap ==> r.data[i] == 0)
  {
  }

  /** The oldest sequence number that the index still covers. */
  function Earliest(head: nat, capacity: nat): nat {
    if head > capacity then head - capacity else 1
  }

  function Slot(r: Rings, s: nat): EntryInfo
    requires WellFormed(r)
  {
    r.index[SlotOf(s, |r.index|)]
  }

  predicate InBounds(r: Rings, s: nat)
    requires WellFormed(r)
  {
    Slot(r, s).offset + Slot(r, s).length <= |r.data|
  }

  function Stored(r: Rings, s: nat): Bytes
    requires WellFormed(r) && InBounds(r, s)
  {
    r.data[Slot(r, s).offset..Slot(r, s).offset + Slot(r, s).length]
  }

  /** A live entry is stored whole: the slot still points at exactly its bytes. */
  predicate Readable(r: Rings, history: seq<Bytes>, s: nat)
    requires WellFormed(r) && 1 <= s <= |history|
  {
    InBounds(r, s) && Stored(r, s) == history[s - 1]
  }

  ghost predicate AllReadable(r: Rings, history: seq<Bytes>) {
    && WellFormed(r) && r.head == |history| + 1
    && (forall s :: Earliest(r.head, |r.index|) <= s < r.head ==> Readable(r, history, s))
  }

  /** The rings hold exactly the live part of the history, in disjoint regions, for entries
      of at most l bytes, estimated at no more than m, in a buffer with room for them. */
  ghost predicate Intact(r: Rings, history: seq<Bytes>, l: nat, m: nat) {
    && AllReadable(r, history)
    && Times(|r.index|, l) + m <= |r.data| + 1 && r.bufHead <= |r.data|
    && (forall s :: Earliest(r.head, |r.index|) <= s < r.head ==>
          Placed(Slot(r, s), s, r.head, r.bufHead, |r.index|, l))
    && (forall s, t :: Earliest(r.head, |r.index|) <= s < t < r.head ==> Disjoint(Slot(r, s), Slot(r, t)))
  }

  function Overwrite(data: Bytes, start: nat, out: Bytes): Bytes
    requires start + |out| <= |data|
  {
    data[..start] + out + data[start + |out|..]
  }

  /** The rings after an append; only an estimate that fits is written in place. */
  function Appended(r: Rings, sz: nat, out: Bytes): Rings
    requires WellFormed(r)
  {
    var start := WriteAt(r.bufHead, sz, |r.data|);
    Rings(r.index[SlotOf(r.head, |r.index|) := EntryInfo(start, |out|)],
          if |out| <= sz <= |r.data| then Overwrite(r.data, start, out) else r.data,
          r.head + 1, start + |out|)
  }

  lemma OverwriteKeeps(data: Bytes, start: nat, out: Bytes, i: EntryInfo)
    requires start + |out| <= |data| && i.offset + i.length <= |data| && Disjoint(i, EntryInfo(start, |out|))
    ensures Overwrite(data, start, out)[i.offset..i.offset + i.length] == data[i.offset..i.offset + i.length]
    ensures Overwrite(data, start, out)[start..start + |out|] == out
  {
  }

  lemma SlotsAfter(r: Rings, sz: nat, out: Bytes, s: nat)
    requires WellFormed(r)
    ensures r.head - |r.index| < s < r.head ==> Slot(Appended(r, sz, out), s) == Slot(r, s)
    ensures Slot(Appended(r, sz, out), r.head) == EntryInfo(WriteAt(r.bufHead, sz, |r.data|), |out|)
  {
    if r.head - |r.index| < s < r.head {
      SlotsDiffer(s, r.head, |r.index|);
    }
  }

  /** What `Intact` says of one live entry. */
  predicate Safe(r: Rings, bytes: Bytes, l: nat, s: nat)
    requires WellFormed(r) && s < r.head <= s + |r.index|
  {
    && InBounds(r, s) && Stored(r, s) == bytes
    && Placed(Slot(r, s), s, r.head, r.bufHead, |r.index|, l)
  }

  lemma SlotKept(r: Rings, bytes: Bytes, l: nat, m: nat, sz: nat, out: Bytes, s: nat)
    requires WellFormed(r) && s < r.head < s + |r.index| && Safe(r, bytes, l, s)
    requires Times(|r.index|, l) + m <= |r.data| + 1 && 0 < |out| <= l && |out| <= sz <= m && sz <= |r.data|
    ensures var r' := Appended(r, sz, out);
            && Slot(r', s) == Slot(r, s) && Safe(r', bytes, l, s)
            && Disjoint(Slot(r', s), Slot(r', r.head))
  {
    var i, start := Slot(r, s), WriteAt(r.bufHead, sz, |r.data|);
    SlotsAfter(r, sz, out, s);
    WriteIsClear(i, s, r.head, r.bufHead, |r.index|, l, m, |r.data|, sz, |out|);
    OverwriteKeeps(r.data, start, out, i);
  }

  lemma OldSlotKept(r: Rings, history: seq<Bytes>, l: nat, m: nat, sz: nat, out: Bytes, s: nat)
    requires Intact(r, history, l, m) && 0 < |out| <= l && |out| <= sz <= m && sz <= |r.data|
    requires Earliest(r.head + 1, |r.index|) <= s < r.head
    ensures var r' := Appended(r, sz, out);
            && Slot(r', s) == Slot(r, s) && Safe(r', history[s - 1], l, s)
            && Disjoint(Slot(r', s), Slot(r', r.head))
  {
    assert Readable(r, history, s);
    SlotKept(r, history[s - 1], l, m, sz, out, s);
  }

  lemma NewSlotHolds(r: Rings, l: nat, sz: nat, out: Bytes)
    requires WellFormed(r) && r.bufHead <= |r.data| && 0 < |out| <= l && |out| <= sz <= |r.data|
    ensures var r' := Appended(r, sz, out);
            && InBounds(r', r.head) && Stored(r', r.head) == out
            && Placed(Slot(r', r.head), r.head, r'.head, r'.bufHead, |r.index|, l)
            && r'.bufHead <= |r.data|
  {
  }

  lemma RoomForOne(capacity: nat, l: nat, m: nat, bufCap: nat)
    requires capacity > 0 && Times(capacity, l) + m <= bufCap + 1 && l > 0
    ensures m <= bufCap
  {
  }

  lemma SlotsStay(r: Rings, history: seq<Bytes>, l: nat, m: nat, sz: nat, out: Bytes, s: nat)
    requires Intact(r, history, l, m) && 0 < |out| <= l && |out| <= sz <= m && sz <= |r.data|
    requires Earliest(r.head + 1, |r.index|) <= s <= r.head
    ensures var r' := Appended(r, sz, out);
            && Readable(r', history + [out], s)
            && Placed(Slot(r', s), s, r'.head, r'.bufHead, |r.index|, l)
  {
    if s < r.head {
      OldSlotKept(r, history, l, m, sz, out, s);
    } else {
      NewSlotHolds(r, l, sz, out);
    }
  }

  lemma SlotsDisjoint(r: Rings, history: seq<Bytes>, l: nat, m: nat, sz: nat, out: Bytes)
    requires Intact(r, history, l, m) && 0 < |out| <= l && |out| <= sz <= m && sz <= |r.data|
    ensures var r' := Appended(r, sz, out);
            forall s, t :: Earliest(r'.head, |r.index|) <= s < t < r'.head ==> Disjoint(Slot(r', s), Slot(r', t))
  {
    var r' := Appended(r, sz, out);
    forall s, t | Earliest(r'.head, |r.index|) <= s < t < r'.head ensures Disjoint(Slot(r', s), Slot(r', t)) {
      OldSlotKept(r, history, l, m, sz, out, s);
      if t < r.head {
        OldSlotKept(r, history, l, m, sz, out, t);
      }
    }
  }

  lemma AllReadableStays(r: Rings, history: seq<Bytes>, l: nat, m: nat, sz: nat, out: Bytes)
    requires Intact(r, history, l, m) && 0 < |out| <= l && |out| <= sz <= m && sz <= |r.data|
    ensures AllReadable(Appended(r, sz, out), history + [out])
  {
    var r' := Appended(r, sz, out);
    forall s | Earliest(r'.head, |r'.index|) <= s < r'.head ensures Readable(r', history + [out], s) {
      SlotsStay(r, history, l, m, sz, out, s);
    }
  }

  /** The double ring refines the append-only history: an append of at most l bytes,
      estimated at no more than m, keeps every live slot pointing at exactly the bytes appended under its number. */
  lemma AppendKeepsIntact(r: Rings, history: seq<Bytes>, l: nat, m: nat, sz: nat, out: Bytes)
    requires Intact(r, history, l, m) && 0 < |out| <= l && |out| <= sz <= m
    ensures sz <= |r.data| && Intact(Appended(r, sz, out), history + [out], l, m)
  {
    RoomForOne(|r.index|, l, m, |r.data|);
    NewSlotHolds(r, l, sz, out);
    AllReadableStays(r, history, l, m, sz, out);
    SlotsDisjoint(r, history, l, m, sz, out);
    var r' := Appended(r, sz, out);
    forall s | Earliest(r'.head, |r'.index|) <= s < r'.head
      ensures Placed(Slot(r', s), s, r'.head, r'.bufHead, |r'.index|, l)
    {
      SlotsStay(r, history, l, m, sz, out, s);
    }
  }

  // ---------------------------------------------------------------- reading

  ghost function Total(bs: seq<Bytes>): nat {
    if bs == [] then 0 else Total(bs[..|bs| - 1]) + |bs[|bs| - 1]|
  }

  /** bs is the longest run of `all` from index `from` that meets both limits; the byte
      limit never stops the first entry. */
  ghost predicate LongestRun(bs: seq<Bytes>, all: seq<Bytes>, from: nat, limit: nat, maxBytes: int) {
    && from + |bs| <= |all| && bs == all[from..from + |bs|]
    && |bs| <= limit && (|bs| <= 1 || Total(bs) <= maxBytes)
    && (|| |bs| == limit
        || from + |bs| == |all|
        || (|bs| >= 1 && Total(bs + [all[from + |bs|]]) > maxBytes))
  }

  lemma {:induction false} TotalFirst(b: Bytes, bs: seq<Bytes>)
    ensures Total([b] + bs) == |b| + Total(bs)
  {
    if bs != [] {
      var n := |bs| - 1;
      TotalFirst(b, bs[..n]);
      assert ([b] + bs)[..n + 1] == [b] + bs[..n];
    }
  }

  /** The recorded length of an entry and, if they are in bounds, its bytes. */
  datatype Copy = Copy(length: nat, bytes: Option<Bytes>)

  function CopyOf(r: Rings, s: nat): Copy
    requires WellFormed(r)
  {
    Copy(Slot(r, s).length, if InBounds(r, s) then Some(Stored(r, s)) else None)
  }

  function Reader(r: Rings): nat -> Copy
    requires WellFormed(r)
  {
    (s: nat) => CopyOf(r, s)
  }

  ghost predicate Serves(read: nat -> Copy, r: Rings, s: nat)
    requires WellFormed(r)
  {
    read(s) == CopyOf(r, s)
  }

  /** What the copying loop returns from sequence number `from` on, after `used` bytes: it
      stops before an entry that exceeds the byte limit, unless it is the first, and panics
      at a slot that points past the buffer. */
  function CopyRun(read: nat -> Copy, from: nat, count: nat, maxBytes: int, used: nat, first: bool): Option<seq<Bytes>>
    decreases count
  {
    if count == 0 || (!first && used + read(from).length > maxBytes) then Some([])
    else if read(from).bytes.None? then None
    else
      Prepend([read(from).bytes.value],
              CopyRun(read, from + 1, count - 1, maxBytes, used + read(from).length, false))
  }

  function Prepend(bs: seq<Bytes>, o: Option<seq<Bytes>>): Option<seq<Bytes>> {
    if o.None? then None else Some(bs + o.value)
  }

  lemma PrependNothing(o: Option<seq<Bytes>>)
    ensures Prepend([], o) == o
  {
    if o.Some? {
      assert [] + o.value == o.value;
    }
  }

  lemma PrependEnd(bs: seq<Bytes>)
    ensures Prepend(bs, Some([])) == Some(bs)
  {
    assert bs + [] == bs;
  }

  /** One turn of the loop, when it goes on. */
  lemma CopyRunStep(
    read: nat -> Copy, from: nat, count: nat, maxBytes: int, used: nat, first: bool, res: seq<Bytes>, b: Bytes)
    requires count > 0 && (first || used + read(from).length <= maxBytes) && read(from).bytes == Some(b)
    ensures Prepend(res, CopyRun(read, from, count, maxBytes, used, first))
         == Prepend(res + [b], CopyRun(read, from + 1, count - 1, maxBytes, used + read(from).length, false))
  {
    PrependTwice(res, b, CopyRun(read, from + 1, count - 1, maxBytes, used + read(from).length, false));
  }

  lemma PrependTwice(bs: seq<Bytes>, b: Bytes, o: Option<seq<Bytes>>)
    ensures Prepend(bs, Prepend([b], o)) == Prepend(bs + [b], o)
  {
    if o.Some? {
      assert bs + ([b] + o.value) == (bs + [b]) + o.value;
    }
  }

  /** bs is the longest run of `all` from index `from` that meets both limits after `used`
      bytes; the byte limit never stops the first entry. */
  ghost predicate LongestFrom(
    bs: seq<Bytes>, all: seq<Bytes>, from: nat, count: nat, maxBytes: int, used: nat, first: bool)
  {
    && from + |bs| <= |all| && bs == all[from..from + |bs|] && |bs| <= count
    && (bs == [] || (first && |bs| == 1) || used + Total(bs) <= maxBytes)
    && (|| |bs| == count
        || (from + |bs| < |all| && !(first && bs == []) && used + Total(bs) + |all[from + |bs|]| > maxBytes))
  }

  lemma LongestStep(
    b: Bytes, rest: seq<Bytes>, all: seq<Bytes>, from: nat, count: nat, maxBytes: int, used: nat, first: bool)
    requires count > 0 && from < |all| && all[from] == b && (first || used + |b| <= maxBytes)
    requires LongestFrom(rest, all, from + 1, count - 1, maxBytes, used + |b|, false)
    ensures LongestFrom([b] + rest, all, from, count, maxBytes, used, first)
  {
    TotalFirst(b, rest);
    assert [b] + rest == all[from..from + 1 + |rest|];
  }

  lemma {:induction false} CopyRunIsLongest(
    read: nat -> Copy, all: seq<Bytes>, from: nat, count: nat, maxBytes: int, used: nat, first: bool)
    requires 1 <= from && from + count <= |all| + 1
    requires forall s :: from <= s < from + count ==> read(s) == Copy(|all[s - 1]|, Some(all[s - 1]))
    ensures var o := CopyRun(read, from, count, maxBytes, used, first);
            o.Some? && LongestFrom(o.value, all, from - 1, count, maxBytes, used, first)
    decreases count
  {
    if count > 0 {
      var b := all[from - 1];
      assert read(from) == Copy(|b|, Some(b));
      if first || used + |b| <= maxBytes {
        CopyRunIsLongest(read, all, from + 1, count - 1, maxBytes, used + |b|, false);
        var rest := CopyRun(read, from + 1, count - 1, maxBytes, used + |b|, false).value;
        LongestStep(b, rest, all, from - 1, count, maxBytes, used, first);
      }
    }
  }

  lemma TotalOneMore(bs: seq<Bytes>, b: Bytes)
    ensures Total(bs + [b]) == Total(bs) + |b|
  {
    assert (bs + [b])[..|bs|] == bs;
  }

  function AtMost(n: nat, limit: nat): nat { if n > limit then limit else n }

  /** While every live entry is readable, a read returns the longest run. */
  lemma ReadsLongestRun(r: Rings, all: seq<Bytes>, from: nat, limit: nat, maxBytes: int)
    requires AllReadable(r, all) && Earliest(r.head, |r.index|) <= from < r.head
    ensures var count := if r.head - from > limit then limit else r.head - from;
            var o := CopyRun(Reader(r), from, count, maxBytes, 0, true);
            && o.Some? && LongestRun(o.value, all, from - 1, limit, maxBytes)
            && (limit > 0 ==> o.value != [])
  {
    var count := AtMost(r.head - from, limit);
    forall s | from <= s < from + count ensures Reader(r)(s) == Copy(|all[s - 1]|, Some(all[s - 1])) {
      assert Readable(r, all, s);
    }
    CopyRunIsLongest(Reader(r), all, from, count, maxBytes, 0, true);
    var bs := CopyRun(Reader(r), from, count, maxBytes, 0, true).value;
    if |bs| < count {
      TotalOneMore(bs, all[from - 1 + |bs|]);
    }
  }

  method Remainder(s: nat, capacity: nat) returns (i: nat)
    requires capacity > 0
    ensures i == SlotOf(s, capacity)
  {
    SlotIsRemainder(s, capacity);
    i := s % capacity;
  }

  // ---------------------------------------------------------------- the log

  /** The bytes that `NewDeltaLog` sets aside: 256 for each entry, or 256 MiB in all. */
  function BufferSize(capacity: nat): nat {
    if capacity < 100_000 then capacity * 256 else 256 * 1024 * 1024
  }

  /** On both sides of the limit. */
  lemma BufferSizes(capacity: nat)
    ensures capacity <= 99_999 ==> BufferSize(capacity) == 256 * capacity <= 25_599_744
    ensures capacity >= 100_000 ==> BufferSize(capacity) == 268_435_456
  {
  }

  class DeltaLog {
    const capacity: nat
    const index: array<EntryInfo>
    const data: array<Byte>
    var head: nat
    var bufHead: nat
    /** The bytes of every entry ever appended; those of sequence number s are history[s - 1]. */
    ghost var history: seq<Bytes>

    ghost predicate Valid()
      reads this
    {
      && capacity > 0 && index.Length == capacity && data.Length < TWO32
      && head == |history| + 1
    }

    ghost function Contents(): Rings
      reads this, index, data
    {
      Rings(index[..], data[..], head, bufHead)
    }

    constructor (capacity: nat)
      requires capacity > 0
      ensures Valid() && this.capacity == capacity && head == 1 && bufHead == 0 && history == []
      ensures data.Length == BufferSize(capacity) && Contents() == Blank(capacity, BufferSize(capacity))
      ensures forall l: nat, m: nat :: Times(capacity, l) + m <= data.Length + 1 ==> Intact(Contents(), history, l, m)
      ensures fresh(index) && fresh(data)
    {
      var size := if capacity < 100_000 then capacity * 256 else 256 * 1024 * 1024;
      this.capacity := capacity;
      this.index := new EntryInfo[capacity](_ => EntryInfo(0, 0));
      this.data := new Byte[size](_ => 0);
      head, bufHead, history := 1, 0, [];
    }

    /** Appends an entry under the next sequence number. An entry whose estimated size is
        larger than the buffer is marshalled elsewhere: its slot is set but its bytes are
        not kept. When no entry is longer than l bytes or estimated at more than m, and the
        buffer has room for them, the double ring stays intact. */
    method Append(entry: LogEntry, ghost l: nat, ghost m: nat) returns (s: nat)
      requires Valid() && ValidEntry(entry.(seqNo := head)) && bufHead + EntrySize(entry) < TWO32
      modifies this`head, this`bufHead, this`history, index, data
      ensures Valid() && s == old(head)
      ensures history == old(history) + [EncodeEntry(entry.(seqNo := s))]
      ensures WellFormed(old(Contents()))
              && Contents() == Appended(old(Contents()), EntrySize(entry), EncodeEntry(entry.(seqNo := s)))
      ensures |EncodeEntry(entry.(seqNo := s))| <= l && EntrySize(entry) <= m ==>
                old(Intact(Contents(), history, l, m)) ==> Intact(Contents(), history, l, m)
    {
      s := head;
      var e := entry.(seqNo := s);
      EntryFits(e);
      var out := MarshalEntry(e, []);
      assert out == EncodeEntry(e);
      Write(EntrySize(e), out, l, m);
    }

    method Write(sz: nat, out: Bytes, ghost l: nat, ghost m: nat)
      requires Valid() && 0 < |out| <= sz && bufHead + sz < TWO32
      modifies this`head, this`bufHead, this`history, index, data
      ensures Valid() && history == old(history) + [out]
      ensures WellFormed(old(Contents())) && Contents() == Appended(old(Contents()), sz, out)
      ensures old(Intact(Contents(), history, l, m)) && |out| <= l && sz <= m ==> Intact(Contents(), history, l, m)
    {
      ghost var before, was := Contents(), history;
      if bufHead + sz > data.Length {
        bufHead := 0;
      }
      var start := bufHead;
      if start + sz <= data.Length {
        CopyIn(out, start);
      }
      var slot := Remainder(head, capacity);
      index[slot] := EntryInfo(start, |out|);
      bufHead := bufHead + |out|;
      head := head + 1;
      history := history + [out];
      if Intact(before, was, l, m) && |out| <= l && sz <= m {
        AppendKeepsIntact(before, was, l, m, sz, out);
      }
    }

    method CopyIn(out: Bytes, start: nat)
      requires start + |out| <= data.Length
      modifies data
      ensures data[..] == Overwrite(old(data[..]), start, out)
    {
      forall j | 0 <= j < |out| {
        data[start + j] := out[j];
      }
    }

    /** Copies out the entries from startSeq on, as raw bytes: the longest run from the
        later of startSeq and the earliest live entry that meets both limits, not empty when
        there is something to read (an empty log answers startSeq 0 with nothing). The
        run-time panic of a slot that points past the buffer is the answer None; it does not
        happen while the live slots are readable. */
    method GetEntriesRaw(startSeq: nat, limit: nat, maxBytes: int) returns (r: Option<seq<Bytes>>)
      requires Valid()
      ensures startSeq >= head ==> r == Some([])
      ensures startSeq < head ==>
                var from := Max(startSeq, Earliest(head, capacity));
                r == CopyRun(Reader(Contents()), from, AtMost(head - from, limit), maxBytes, 0, true)
      ensures startSeq < head && history != [] && AllReadable(Contents(), history) ==>
                var from := Max(startSeq, Earliest(head, capacity));
                && r.Some? && LongestRun(r.value, history, from - 1, limit, maxBytes)
                && (limit > 0 ==> r.value != [])
    {
      if startSeq >= head {
        return Some([]);
      }
      var from, count := Clamp(startSeq, limit);
      r := Collect(from, count, maxBytes);
      if history != [] && AllReadable(Contents(), history) {
        ReadsLongestRun(Contents(), history, from, limit, maxBytes);
      }
    }

    /** Where a read starts and how many entries it may return. */
    method Clamp(startSeq: nat, limit: nat) returns (from: nat, count: nat)
      requires Valid() && startSeq < head
      ensures from == Max(startSeq, Earliest(head, capacity)) <= head
      ensures count == AtMost(head - from, limit)
    {
      var earliest := 1;
      if head > capacity {
        earliest := head - capacity;
      }
      from := startSeq;
      if from < earliest {
        from := earliest;
      }
      count := head - from;
      if count > limit {
        count := limit;
      }
    }

    /** The copying loop, over at most `count` entries from sequence number `from` on. */
    method Collect(from: nat, count: nat, maxBytes: int) returns (r: Option<seq<Bytes>>)
      requires Valid()
      ensures r == CopyRun(Reader(Contents()), from, count, maxBytes, 0, true)
    {
      r := CollectWith(from, count, maxBytes, Reader(Contents()));
    }

    method CollectWith(from: nat, count: nat, maxBytes: int, ghost read: nat -> Copy) returns (r: Option<seq<Bytes>>)
      requires Valid() && forall s :: Serves(read, Contents(), s)
      ensures r == CopyRun(read, from, count, maxBytes, 0, true)
    {
      var res: seq<Bytes> := [];
      var currentBytes: nat := 0;
      PrependNothing(CopyRun(read, from, count, maxBytes, 0, true));
      for i := 0 to count
        invariant |res| == i
        invariant CopyRun(read, from, count, maxBytes, 0, true)
               == Prepend(res, CopyRun(read, from + i, count - i, maxBytes, currentBytes, i == 0))
      {
        var entry := ReadEntry(from + i);
        assert Serves(read, Contents(), from + i);
        PrependEnd(res);
        if |res| > 0 && currentBytes + entry.length > maxBytes {
          return Some(res);
        }
        if entry.bytes.None? {
          return None;
        }
        CopyRunStep(read, from + i, count - i, maxBytes, currentBytes, i == 0, res, entry.bytes.value);
        res := res + [entry.bytes.value];
        currentBytes := currentBytes + entry.length;
      }
      PrependEnd(res);
      r := Some(res);
    }

    method ReadEntry(s: nat) returns (c: Copy)
      requires Valid()
      ensures c == CopyOf(Contents(), s)
    {
      var slot := Remainder(s, capacity);
      var info := index[slot];
      assert info == Slot(Contents(), s);
      if info.offset + info.length > data.Length {
        return Copy(info.length, None);
      }
      return Copy(info.length, Some(data[info.offset..info.offset + info.length]));
    }
  }
}
