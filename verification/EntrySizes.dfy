/** The exact length of an encoded log entry, how it relates to the estimate, and from that
    how large the entries of a delta log may be. */
module EntrySizes {
  import opened Wrappers
  import opened Clock
  import opened MessagePack
  import opened Wire
  import opened DeltaLog
  import opened LogBounds
  import opened EntryBounds

  // ---------------------------------------------------------------- exact lengths

  function UintLength(u: int): nat {
    if u < 128 then 1 else if u < TWO8 then 2 else if u < TWO16 then 3 else if u < TWO32 then 5 else 9
  }

  function IntLength(i: int): nat {
    if -32 <= i < 128 then 1
    else if -128 <= i < 0 then 2
    else if -(TWO16 / 2) <= i < TWO16 / 2 then 3
    else if -(TWO32 / 2) <= i < TWO32 / 2 then 5
    else 9
  }

  function StringLength(n: nat): nat { n + if n < 32 then 1 else if n < TWO8 then 2 else if n < TWO16 then 3 else 5 }

  function BinLength(n: nat): nat { n + if n < TWO8 then 2 else if n < TWO16 then 3 else 5 }

  function TimestampLength(t: Timestamp): nat { 1 + 2 + IntLength(t.physical) + 2 + IntLength(t.logical) }

  function FieldLength(f: EntryField): nat {
    match f
    case FSeq(u) => 2 + UintLength(u)
    case FTs(t) => 2 + TimestampLength(t)
    case FBorn(i) => 3 + IntLength(i)
    case FOp(o) => 2 + UintLength(o)
    case FKey(k) => 2 + StringLength(|k|)
    case FNode(n) => 2 + StringLength(|n|)
    case FValue(v) => 2 + BinLength(|v|)
    case FDelta(_) => 2 + 9
    case FTtl(i) => 4 + IntLength(i)
  }

  function FieldLengths(fs: seq<EntryField>): nat {
    if fs == [] then 0 else FieldLength(fs[0]) + FieldLengths(fs[1..])
  }

  lemma TimestampIsLong(t: Timestamp)
    requires ValidTimestamp(t)
    ensures |EncodeTimestamp(t)| == TimestampLength(t)
  {
    var p, l := Field(P, AppendInt(t.physical)), Field(L, AppendInt(t.logical));
    JoinTwo([0x82], p, l, []);
  }

  lemma FieldIsLong(f: EntryField)
    requires ValidField(f)
    ensures |EncodeField(f)| == FieldLength(f)
  {
    if f.FTs? {
      TimestampIsLong(f.t);
    }
  }

  lemma {:induction false} FieldsAreLong(fs: seq<EntryField>)
    requires ValidFields(fs)
    ensures |Concat(Encoded(fs))| == FieldLengths(fs)
  {
    if fs != [] {
      FieldIsLong(fs[0]);
      FieldsAreLong(fs[1..]);
      assert Encoded(fs)[1..] == Encoded(fs[1..]);
    }
  }

  lemma {:induction false} LengthsAppended(a: seq<EntryField>, b: seq<EntryField>)
    ensures FieldLengths(a + b) == FieldLengths(a) + FieldLengths(b)
  {
    if a == [] {
      assert a + b == b;
    } else {
      assert (a + b)[1..] == a[1..] + b;
      LengthsAppended(a[1..], b);
    }
  }

  /** The length of an entry without its sequence number. */
  function RestLength(e: LogEntry): nat {
    1 + 2 + (2 + TimestampLength(e.ts)) + (3 + IntLength(e.bornAt)) + (2 + UintLength(e.op))
    + (2 + StringLength(|e.key|))
    + (if e.nodeID == [] then 0 else 2 + StringLength(|e.nodeID|))
    + (if e.value.None? then 0 else 2 + BinLength(|e.value.value|))
    + (if IsZeroFloat(e.delta) then 0 else 2 + 9)
    + if e.ttl == 0 then 0 else 4 + IntLength(e.ttl)
  }

  lemma RequiredLengths(e: LogEntry)
    ensures FieldLengths(Required(e))
            == 2 + UintLength(e.seqNo) + (2 + TimestampLength(e.ts)) + (3 + IntLength(e.bornAt))
               + (2 + UintLength(e.op)) + (2 + StringLength(|e.key|))
  {
    var r := Required(e);
    LengthsAppended([r[0]], [r[1]]);
    LengthsAppended([r[0]] + [r[1]], [r[2]]);
    LengthsAppended([r[0]] + [r[1]] + [r[2]], [r[3]]);
    LengthsAppended([r[0]] + [r[1]] + [r[2]] + [r[3]], [r[4]]);
    assert r == [r[0]] + [r[1]] + [r[2]] + [r[3]] + [r[4]];
  }

  lemma OptionalLengths(e: LogEntry)
    ensures FieldLengths(NodeField(e)) == if e.nodeID == [] then 0 else 2 + StringLength(|e.nodeID|)
    ensures FieldLengths(ValueField(e)) == if e.value.None? then 0 else 2 + BinLength(|e.value.value|)
    ensures FieldLengths(DeltaField(e)) == if IsZeroFloat(e.delta) then 0 else 2 + 9
    ensures FieldLengths(TtlField(e)) == if e.ttl == 0 then 0 else 4 + IntLength(e.ttl)
  {
  }

  lemma FiveParts(a: seq<EntryField>, b: seq<EntryField>, c: seq<EntryField>, d: seq<EntryField>, e: seq<EntryField>)
    ensures FieldLengths(a + b + c + d + e)
            == FieldLengths(a) + FieldLengths(b) + FieldLengths(c) + FieldLengths(d) + FieldLengths(e)
  {
    LengthsAppended(a, b);
    LengthsAppended(a + b, c);
    LengthsAppended(a + b + c, d);
    LengthsAppended(a + b + c + d, e);
  }

  /** The exact length of an encoded entry. */
  lemma EntryIsLong(e: LogEntry)
    requires ValidEntry(e)
    ensures |EncodeEntry(e)| == RestLength(e) + UintLength(e.seqNo)
  {
    FieldsOfValid(e);
    FieldsAreLong(FieldsOf(e));
    RequiredLengths(e);
    OptionalLengths(e);
    FiveParts(Required(e), NodeField(e), ValueField(e), DeltaField(e), TtlField(e));
  }

  // ---------------------------------------------------------------- what is appended

  /** The entry may be appended; its sequence number is yet to come. */
  predicate Unnumbered(e: LogEntry) { ValidEntry(e.(seqNo := 0)) }

  /** What an append of e under sequence number n writes. */
  function Recorded(e: LogEntry, n: nat): Piece {
    if Unnumbered(e) && n < TWO64 then Piece(EntrySize(e), EncodeEntry(e.(seqNo := n))) else Piece(1, [0])
  }

  lemma RecordedLength(e: LogEntry, n: nat)
    requires Unnumbered(e) && n < TWO64
    ensures Recorded(e, n).sz == EntrySize(e) && 0 < |Recorded(e, n).out| <= EntrySize(e)
    ensures |Recorded(e, n).out| == RestLength(e) + UintLength(n) <= RestLength(e) + 9
  {
    EntryIsLong(e.(seqNo := n));
    EntryFits(e.(seqNo := n));
  }

  lemma RecordedTakes(e: LogEntry)
    requires Unnumbered(e)
    ensures Takes(Recorded, e, RestLength(e) + 9, EntrySize(e))
  {
    forall n | 0 < n < TWO64
      ensures Recorded(e, n).sz == EntrySize(e) && 0 < |Recorded(e, n).out| <= EntrySize(e)
      ensures TWO32 <= n ==> |Recorded(e, n).out| == RestLength(e) + 9
    {
      RecordedLength(e, n);
    }
  }

  lemma RecordedFirst(e: LogEntry, n: nat)
    requires Unnumbered(e) && n < TWO64
    ensures Recorded(e, n).out != [] && Recorded(e, n).out[0] == 0x80 + |FieldsOf(e)| >= 0x85
  {
  }

  lemma RecordedDiffer(e: LogEntry, n: nat, n': nat)
    requires Unnumbered(e) && n < TWO64 && n' < TWO64 && n != n'
    ensures Recorded(e, n).out != Recorded(e, n').out
  {
    NoPrefix(e.(seqNo := n), e.(seqNo := n'));
  }

  /** A TTL of 2^62 milliseconds ends in a zero byte. */
  const TWO62 := TWO63 / 2

  lemma LongTtlEndsInZero()
    ensures |AppendInt(TWO62)| == 9 && AppendInt(TWO62)[8] == 0
  {
    assert BigEndian(TWO62, 8)[7] == TWO62 % 256 == 0;
  }

  lemma RecordedLast(e: LogEntry, n: nat)
    requires Unnumbered(e) && n < TWO64 && e.ttl == TWO62
    ensures Recorded(e, n).out != [] && Recorded(e, n).out[|Recorded(e, n).out| - 1] == 0
  {
    var x := e.(seqNo := n);
    FieldsOfValid(x);
    var fs := Required(x) + NodeField(x) + ValueField(x) + DeltaField(x);
    assert FieldsOf(x) == fs + [FTtl(TWO62)];
    LastField(fs, FTtl(TWO62));
    LongTtlEndsInZero();
  }

  lemma LastField(fs: seq<EntryField>, f: EntryField)
    requires ValidFields(fs + [f]) && ValidField(f)
    ensures var b := Concat(Encoded(fs + [f])); |EncodeField(f)| <= |b| && b[|b| - |EncodeField(f)|..] == EncodeField(f)
  {
    assert Encoded(fs + [f]) == Encoded(fs + [f])[..|fs|] + [EncodeField(f)];
    ConcatOneMore(Encoded(fs + [f])[..|fs|], EncodeField(f));
  }

  lemma EndsUnlikeBegins(e: LogEntry, n: nat, n': nat)
    requires Unnumbered(e) && TWO32 <= n < TWO64 && n' < TWO64 && e.ttl == TWO62
    ensures |Recorded(e, n).out| == RestLength(e) + 9 && Recorded(e, n').out != []
    ensures Recorded(e, n).out[RestLength(e) + 8] != Recorded(e, n').out[0]
  {
    RecordedLength(e, n);
    RecordedLast(e, n);
    RecordedFirst(e, n');
  }

  lemma MarkedBy<T(!new)>(rec: Recorder<T>, x: T, l: nat)
    requires 0 < l && forall n :: TWO32 <= n < TWO64 ==> |rec(x, n).out| == l
    requires forall n, n' :: TWO32 <= n < n' < TWO64 ==> rec(x, n).out != rec(x, n').out
    requires forall n, n' :: TWO32 <= n < TWO64 && TWO32 <= n' < TWO64 ==> rec(x, n).out[l - 1] != rec(x, n').out[0]
    ensures Marked(rec, x, l)
  {
  }

  lemma RecordedMarked(e: LogEntry)
    requires Unnumbered(e) && e.ttl == TWO62
    ensures Takes(Recorded, e, RestLength(e) + 9, EntrySize(e)) && Marked(Recorded, e, RestLength(e) + 9)
  {
    RecordedTakes(e);
    forall n, n' | TWO32 <= n < n' < TWO64 ensures Recorded(e, n).out != Recorded(e, n').out {
      RecordedDiffer(e, n, n');
    }
    var l := RestLength(e) + 9;
    forall n, n' | TWO32 <= n < TWO64 && TWO32 <= n' < TWO64
      ensures Recorded(e, n).out[l - 1] != Recorded(e, n').out[0]
    {
      EndsUnlikeBegins(e, n, n');
    }
    MarkedBy(Recorded, e, l);
  }

  /** A log whose rings hold what is recorded for these entries. */
  ghost predicate Holds(log: DeltaLog, es: seq<LogEntry>)
    reads log, log.index, log.data
  {
    && log.Valid() && log.bufHead <= log.data.Length == BufferSize(log.capacity)
    && log.Contents() == RingsOf(log.capacity, log.data.Length, es, Recorded)
    && log.history == Outs(PiecesOf(es, Recorded))
  }

  /** One more entry appended to such a log. */
  method AppendNext(log: DeltaLog, ghost es: seq<LogEntry>, e: LogEntry)
    requires Holds(log, es) && log.head == |es| + 1 < TWO64
    requires Unnumbered(e) && EntrySize(e) <= log.data.Length
    modifies log`head, log`bufHead, log`history, log.index, log.data
    ensures Holds(log, es + [e]) && log.head == old(log.head) + 1
  {
    RingsOneMore(log.capacity, log.data.Length, es, Recorded, e);
    RecordedLength(e, log.head);
    BufHeadInside(log.Contents(), EntrySize(e), Recorded(e, log.head).out);
    var s := log.Append(e, 0, 0);
  }

  method NewLog(capacity: nat) returns (log: DeltaLog)
    requires capacity > 0
    ensures fresh(log) && fresh(log.index) && fresh(log.data)
    ensures log.capacity == capacity && Holds(log, []) && log.head == 1
  {
    log := new DeltaLog(capacity);
  }

  /** Appending entries to a new log fills its rings with what is recorded for them. */
  method Filled(capacity: nat, es: seq<LogEntry>) returns (log: DeltaLog)
    requires capacity > 0 && |es| < TWO64 - 1
    requires forall i :: 0 <= i < |es| ==> Unnumbered(es[i]) && EntrySize(es[i]) <= BufferSize(capacity)
    ensures log.capacity == capacity && Holds(log, es)
  {
    log := NewLog(capacity);
    for i := 0 to |es|
      invariant fresh(log) && fresh(log.index) && fresh(log.data)
      invariant log.capacity == capacity && Holds(log, es[..i]) && log.head == i + 1
    {
      AppendNext(log, es[..i], es[i]);
      assert es[..i + 1] == es[..i] + [es[i]];
    }
    assert es[..|es|] == es;
  }

  // ---------------------------------------------------------------- all entries up to an estimate

  type Kind = LogEntry -> bool

  /** The entries estimated at no more than m. */
  function Estimated(m: nat): Kind { (e: LogEntry) => Unnumbered(e) && EntrySize(e) <= m }

  /** The estimate is 94 bytes and the key, the node and the value; a missing value counts as an
      empty one. */
  lemma EstimateIs(e: LogEntry)
    ensures e.value.Some? ==> EntrySize(e) == 94 + |e.key| + |e.nodeID| + |e.value.value|
    ensures e.value.None? ==> EntrySize(e) == 94 + |e.key| + |e.nodeID|
  {
  }

  /** What the estimate allows for and the encoding never takes: while no string or value has
      256 bytes, three bytes of each of their three headers. */
  lemma EncodingIsShorter(e: LogEntry)
    requires Unnumbered(e) && EntrySize(e) < 350
    ensures RestLength(e) + 9 <= EntrySize(e) - 9
  {
  }

  /** The longest entry estimated at m, while no string or value needs 256 bytes: all fields
      present, all numbers at their full width. */
  function Widest(m: nat): LogEntry
    requires m >= 158
  {
    LogEntry(0, Timestamp(TWO62, TWO32 / 4), TWO62, 255, Same(32, 0), Same(32, 0), Some(Same(m - 158, 0)), 1, TWO62)
  }

  lemma WidestIsWide(m: nat)
    requires 158 <= m < TWO32
    ensures Unnumbered(Widest(m)) && EntrySize(Widest(m)) == m && m - 9 <= RestLength(Widest(m)) + 9 <= m
    ensures m < 350 ==> RestLength(Widest(m)) + 9 == m - 9
  {
  }

  /** The same with a small message type is a byte shorter. */
  lemma NarrowerByOne(e: LogEntry)
    requires Unnumbered(e) && e.op == 255
    ensures var f := e.(op := 0);
            Unnumbered(f) && EntrySize(f) == EntrySize(e) && RestLength(f) + 1 == RestLength(e)
  {
  }

  lemma WidestReaches(m: nat)
    requires 158 <= m < TWO32
    ensures var e := Widest(m); Reached(Recorded, e, e.(op := 0), RestLength(e) + 9, m, m)
  {
    var e := Widest(m);
    WidestIsWide(m);
    NarrowerByOne(e);
    RecordedMarked(e);
    RecordedTakes(e.(op := 0));
  }

  lemma EstimatedWithin(m: nat)
    ensures Within(Recorded, Estimated(m), m, m)
    ensures m < 350 ==> Within(Recorded, Estimated(m), Max(0, m - 9), m)
  {
    forall e: LogEntry, n: nat | Estimated(m)(e) && 0 < n < TWO64
      ensures Fits(Recorded(e, n), m, m) && (m < 350 ==> Fits(Recorded(e, n), Max(0, m - 9), m))
    {
      RecordedLength(e, n);
      if m < 350 {
        EncodingIsShorter(e);
      }
    }
  }

  /** Over every run of appends of log entries estimated at no more than m: a log never loses
      a live entry exactly when its buffer has room for `capacity` entries nine bytes shorter
      than m and one estimate, less one byte (with one slot, for one estimate). */
  lemma EntriesKeptExactly(capacity: nat, bufCap: nat, m: nat)
    requires capacity > 0 && capacity + bufCap < TWO63 && 158 <= m < 350
    ensures AlwaysKept(capacity, bufCap, Recorded, Estimated(m)) <==> Roomy(capacity, bufCap, m - 9, m)
  {
    var e := Widest(m);
    WidestIsWide(m);
    NarrowerByOne(e);
    WidestReaches(m);
    EstimatedWithin(m);
    RecordedFirst(e, 1);
    KeptExactlyWhenRoomy(capacity, bufCap, Recorded, Estimated(m), e, e.(op := 0), m - 9, m, m);
  }

  lemma {:induction false} TimesWidens(k: nat, l: nat, l': nat)
    requires l <= l'
    ensures Times(k, l) <= Times(k, l')
  {
    if k > 0 {
      TimesWidens(k - 1, l, l');
    }
  }

  /** For larger entries the same to within nine bytes an entry. */
  lemma EntriesKeptWithin(capacity: nat, bufCap: nat, m: nat)
    requires capacity > 0 && capacity + bufCap < TWO63 && 158 <= m < TWO32
    ensures Roomy(capacity, bufCap, m, m) ==> AlwaysKept(capacity, bufCap, Recorded, Estimated(m))
    ensures AlwaysKept(capacity, bufCap, Recorded, Estimated(m)) ==> Roomy(capacity, bufCap, m - 9, m)
  {
    var e := Widest(m);
    WidestIsWide(m);
    NarrowerByOne(e);
    WidestReaches(m);
    RecordedFirst(e, 1);
    if Roomy(capacity, bufCap, m, m) {
      EstimatedWithin(m);
      WithinIsKept(capacity, bufCap, Recorded, Estimated(m), m, m);
    }
    if !Roomy(capacity, bufCap, m - 9, m) {
      TimesWidens(capacity, m - 9, RestLength(e) + 9);
      CrampedLoses(capacity, bufCap, Recorded, Estimated(m), e, e.(op := 0), RestLength(e) + 9, m, m);
    }
  }

  // ---------------------------------------------------------------- what Set appends

  /** The entries of `Set`: message type 0, no node, no delta. */
  function SetEntries(m: nat): Kind {
    (e: LogEntry) => Unnumbered(e) && EntrySize(e) <= m && e.op == 0 && e.nodeID == [] && e.delta == 0
  }

  lemma SetIsShorter(e: LogEntry)
    requires Unnumbered(e) && EntrySize(e) < 350 && e.op == 0 && e.nodeID == [] && e.delta == 0
    ensures RestLength(e) + 9 <= EntrySize(e) - 25
  {
  }

  function WidestSet(m: nat): LogEntry
    requires m >= 127
  {
    LogEntry(0, Timestamp(TWO62, TWO32 / 4), TWO62, 0, Same(33, 0), [], Some(Same(m - 127, 0)), 0, TWO62)
  }

  lemma WidestSetReaches(m: nat)
    requires 127 <= m < 350
    ensures var e := WidestSet(m);
            var f := e.(key := Same(32, 0));
            && SetEntries(m)(e) && SetEntries(m)(f) && RestLength(e) + 9 == m - 25
            && Reached(Recorded, e, f, m - 25, m, m - 1)
  {
    var e := WidestSet(m);
    RecordedMarked(e);
    RecordedTakes(e.(key := Same(32, 0)));
  }

  lemma SetsWithin(m: nat)
    requires 127 <= m < 350
    ensures Within(Recorded, SetEntries(m), m - 25, m)
  {
    forall e: LogEntry, n: nat | SetEntries(m)(e) && 0 < n < TWO64 ensures Fits(Recorded(e, n), m - 25, m) {
      RecordedLength(e, n);
      SetIsShorter(e);
    }
  }

  /** The same for the entries of `Set`, which are at least 25 bytes shorter than estimated. */
  lemma SetsKeptExactly(capacity: nat, bufCap: nat, m: nat)
    requires capacity > 0 && capacity + bufCap < TWO63 && 127 <= m < 350
    ensures AlwaysKept(capacity, bufCap, Recorded, SetEntries(m)) <==> Roomy(capacity, bufCap, m - 25, m)
  {
    var e := WidestSet(m);
    WidestSetReaches(m);
    SetsWithin(m);
    RecordedFirst(e, 1);
    KeptExactlyWhenRoomy(capacity, bufCap, Recorded, SetEntries(m), e, e.(key := Same(32, 0)), m - 25, m, m - 1);
  }

  // ---------------------------------------------------------------- the default buffer

  lemma QuotientBounds(n: nat, d: nat, m: nat)
    requires d > 0
    ensures m <= n / d <==> m * d <= n
  {
    var q := n / d;
    assert q * d <= n < q * d + d;
    if m <= q {
      assert m * d <= q * d;
    } else {
      assert m * d >= (q + 1) * d;
    }
  }

  /** The largest estimate that a buffer is roomy for, when entries are d bytes shorter. */
  function Threshold(capacity: nat, bufCap: nat, d: nat): nat
    requires capacity > 0
  {
    if capacity == 1 then bufCap else (bufCap + 1 + d * capacity) / (capacity + 1)
  }

  lemma RoomyBelowThreshold(capacity: nat, bufCap: nat, d: nat, m: nat)
    requires capacity > 0 && d <= m
    ensures Roomy(capacity, bufCap, m - d, m) <==> m <= Threshold(capacity, bufCap, d)
  {
    TimesIsProduct(capacity, m - d);
    assert capacity * (m - d) + m == m * (capacity + 1) - d * capacity;
    QuotientBounds(bufCap + 1 + d * capacity, capacity + 1, m);
  }

  lemma KeptIsMonotone(capacity: nat, bufCap: nat, kind: Kind, wider: Kind)
    requires capacity > 0 && (forall e: LogEntry :: kind(e) ==> wider(e))
    requires AlwaysKept(capacity, bufCap, Recorded, wider)
    ensures AlwaysKept(capacity, bufCap, Recorded, kind)
  {
    forall xs: seq<LogEntry> | AllOf(xs, kind)
      ensures AllReadable(RingsOf(capacity, bufCap, xs, Recorded), Outs(PiecesOf(xs, Recorded)))
    {
      assert AllOf(xs, wider);
    }
  }

  /** A log whose threshold for log entries lies between 158 and 348 bytes never loses a live
      one exactly when no estimate exceeds it. */
  lemma KeptBelowThreshold(capacity: nat, bufCap: nat, m: nat)
    requires capacity > 0 && capacity + bufCap < TWO63 && 158 <= Threshold(capacity, bufCap, 9) < 349
    ensures AlwaysKept(capacity, bufCap, Recorded, Estimated(m)) <==> m <= Threshold(capacity, bufCap, 9)
  {
    var t := Threshold(capacity, bufCap, 9);
    EntriesKeptExactly(capacity, bufCap, t);
    EntriesKeptExactly(capacity, bufCap, t + 1);
    RoomyBelowThreshold(capacity, bufCap, 9, t);
    RoomyBelowThreshold(capacity, bufCap, 9, t + 1);
    if m <= t {
      KeptIsMonotone(capacity, bufCap, Estimated(m), Estimated(t));
    } else if AlwaysKept(capacity, bufCap, Recorded, Estimated(m)) {
      KeptIsMonotone(capacity, bufCap, Estimated(t + 1), Estimated(m));
    }
  }

  /** The same for the entries of `Set`. */
  lemma SetsKeptBelowThreshold(capacity: nat, bufCap: nat, m: nat)
    requires capacity > 0 && capacity + bufCap < TWO63 && 127 <= Threshold(capacity, bufCap, 25) < 349
    ensures AlwaysKept(capacity, bufCap, Recorded, SetEntries(m)) <==> m <= Threshold(capacity, bufCap, 25)
  {
    var t := Threshold(capacity, bufCap, 25);
    SetsKeptExactly(capacity, bufCap, t);
    SetsKeptExactly(capacity, bufCap, t + 1);
    RoomyBelowThreshold(capacity, bufCap, 25, t);
    RoomyBelowThreshold(capacity, bufCap, 25, t + 1);
    if m <= t {
      KeptIsMonotone(capacity, bufCap, SetEntries(m), SetEntries(t));
    } else if AlwaysKept(capacity, bufCap, Recorded, SetEntries(m)) {
      KeptIsMonotone(capacity, bufCap, SetEntries(t + 1), SetEntries(m));
    }
  }

  lemma SmallThresholds(capacity: nat, d: nat)
    requires 0 < capacity < 100_000 && d <= 25
    ensures 170 <= Threshold(capacity, BufferSize(capacity), d) <= 256 + d
  {
    if capacity > 1 {
      var n := BufferSize(capacity) + 1 + d * capacity;
      QuotientBounds(n, capacity + 1, 170);
      QuotientBounds(n, capacity + 1, 257 + d);
      assert (257 + d) * (capacity + 1) == 257 * capacity + d * capacity + 257 + d;
    }
  }

  /** The buffer that `NewDeltaLog` sets aside, at every capacity below 100 000: no live entry
      is ever lost exactly when no estimate exceeds the threshold, and if all entries are
      those of `Set`, exactly up to a threshold that allows for what they leave out. */
  lemma DefaultBuffer(capacity: nat, m: nat)
    requires 0 < capacity < 100_000
    ensures AlwaysKept(capacity, BufferSize(capacity), Recorded, Estimated(m)) <==>
            m <= Threshold(capacity, BufferSize(capacity), 9)
    ensures AlwaysKept(capacity, BufferSize(capacity), Recorded, SetEntries(m)) <==>
            m <= Threshold(capacity, BufferSize(capacity), 25)
  {
    SmallThresholds(capacity, 9);
    SmallThresholds(capacity, 25);
    KeptBelowThreshold(capacity, BufferSize(capacity), m);
    SetsKeptBelowThreshold(capacity, BufferSize(capacity), m);
  }

  /** The default of a million entries: up to 277 bytes, and up to 293 if all are those of
      `Set`. */
  lemma DefaultLogSize(m: nat)
    ensures AlwaysKept(1_000_000, BufferSize(1_000_000), Recorded, Estimated(m)) <==> m <= 277
    ensures AlwaysKept(1_000_000, BufferSize(1_000_000), Recorded, SetEntries(m)) <==> m <= 293
  {
    var b := BufferSize(1_000_000);
    assert Threshold(1_000_000, b, 9) == 277 && Threshold(1_000_000, b, 25) == 293;
    KeptBelowThreshold(1_000_000, b, m);
    SetsKeptBelowThreshold(1_000_000, b, m);
  }
}
