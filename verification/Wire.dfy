/** The generated codecs of log_gen.go, hlc_gen.go and transport_gen.go. */
module Wire {
  import opened Wrappers
  import opened MessagePack
  import opened Clock

  // ---------------------------------------------------------------- entities

  /** A delta-log entry. A nil `value` differs from an empty one; `delta` is the bit
      pattern of a float64; `op` is the message type byte. */
  datatype LogEntry = LogEntry(
    seqNo: int, ts: Timestamp, bornAt: int, op: int, key: Bytes,
    nodeID: Bytes, value: Option<Bytes>, delta: int, ttl: int)

  datatype Handshake = Handshake(lastSeenSeq: int, authToken: Bytes)

  datatype Batch = Batch(fromNode: Bytes, entries: seq<Bytes>, handshake: Option<Handshake>)

  const ZERO_TIMESTAMP := Timestamp(0, 0)
  const ZERO_ENTRY := LogEntry(0, ZERO_TIMESTAMP, 0, 0, [], [], None, 0, 0)
  const ZERO_HANDSHAKE := Handshake(0, [])
  const ZERO_BATCH := Batch([], [], None)

  /** The ranges of the Go types. */
  predicate ValidTimestamp(t: Timestamp) { IsInt64(t.physical) && IsInt32(t.logical) }

  predicate ValidEntry(e: LogEntry) {
    && IsUint64(e.seqNo) && ValidTimestamp(e.ts) && IsInt64(e.bornAt) && 0 <= e.op < 256
    && Sized(e.key) && Sized(e.nodeID) && (e.value.Some? ==> Sized(e.value.value))
    && IsUint64(e.delta) && IsInt64(e.ttl)
  }

  predicate ValidHandshake(h: Handshake) { IsUint64(h.lastSeenSeq) && Sized(h.authToken) }

  predicate ValidBatch(b: Batch) {
    && Sized(b.fromNode) && |b.entries| < TWO32
    && (forall i :: 0 <= i < |b.entries| ==> Sized(b.entries[i]))
    && (b.handshake.Some? ==> ValidHandshake(b.handshake.value))
  }

  // Field names.
  const S: Bytes := [0x73]
  const T: Bytes := [0x74]
  const BA: Bytes := [0x62, 0x61]
  const O: Bytes := [0x6f]
  const K: Bytes := [0x6b]
  const N: Bytes := [0x6e]
  const V: Bytes := [0x76]
  const D: Bytes := [0x64]
  const TTL: Bytes := [0x74, 0x74, 0x6c]
  const P: Bytes := [0x70]
  const L: Bytes := [0x6c]
  const LS: Bytes := [0x6c, 0x73]
  const AT: Bytes := [0x61, 0x74]
  const F: Bytes := [0x66]
  const E: Bytes := [0x65]
  const H: Bytes := [0x68]

  function Keep<A, Z>(r: Result<A>, z: A -> Z): Result<Z> {
    if r.Err? then Err else Ok(z(r.value), r.rest)
  }

  // ---------------------------------------------------------------- Timestamp

  function EncodeTimestamp(t: Timestamp): Bytes
    requires ValidTimestamp(t)
  {
    [0x82] + Concat([Field(P, AppendInt(t.physical)), Field(L, AppendInt(t.logical))])
  }

  function TimestampField(name: Bytes, b: Bytes, z: Timestamp): Result<Timestamp> {
    if name == P then Keep(ReadInt64(b), x => z.(physical := x))
    else if name == L then Keep(ReadInt32(b), x => z.(logical := x))
    else SkipField(b, z)
  }

  lemma DecodePhysical(i: int, r: Bytes, z: Timestamp)
    requires IsInt64(i)
    ensures TimestampField(P, AppendInt(i) + r, z) == Ok(z.(physical := i), r)
  {
    ReadAppendInt(i, r);
  }

  lemma DecodeLogical(i: int, r: Bytes, z: Timestamp)
    requires IsInt32(i)
    ensures TimestampField(L, AppendInt(i) + r, z) == Ok(z.(logical := i), r)
  {
    ReadAppendInt(i, r);
  }

  lemma TimestampRoundTrip(t: Timestamp, z: Timestamp, rest: Bytes)
    requires ValidTimestamp(t)
    ensures DecodeMap(EncodeTimestamp(t) + rest, z, TimestampField) == Ok(t, rest)
  {
    var p, l := AppendInt(t.physical), AppendInt(t.logical);
    var z' := z.(physical := t.physical);
    DecodePhysical(t.physical, Field(L, l) + rest, z);
    DecodeLogical(t.logical, rest, z');
    DecodeTwo(P, p, L, l, rest, z, z', t, TimestampField);
  }

  lemma TimestampFits(t: Timestamp)
    requires ValidTimestamp(t)
    ensures |EncodeTimestamp(t)| <= 19
  {
    ReadAppendInt(t.physical, []);
    ReadAppendInt(t.logical, []);
    ConcatOneMore([Field(P, AppendInt(t.physical))], Field(L, AppendInt(t.logical)));
    ConcatOneMore([], Field(P, AppendInt(t.physical)));
  }

  // ---------------------------------------------------------------- LogEntry

  /** One field of an entry on the wire. */
  datatype EntryField =
    | FSeq(u: int) | FTs(t: Timestamp) | FBorn(i: int) | FOp(o: int) | FKey(k: Bytes)
    | FNode(n: Bytes) | FValue(v: Bytes) | FDelta(bits: int) | FTtl(i: int)

  /** Go compares the delta with 0, which negative zero equals. */
  predicate IsZeroFloat(bits: int) { bits == 0 || bits == TWO63 }

  function Required(e: LogEntry): seq<EntryField> {
    [FSeq(e.seqNo), FTs(e.ts), FBorn(e.bornAt), FOp(e.op), FKey(e.key)]
  }

  // The fields that are omitted at their zero value.
  function NodeField(e: LogEntry): seq<EntryField> { if e.nodeID == [] then [] else [FNode(e.nodeID)] }
  function ValueField(e: LogEntry): seq<EntryField> { if e.value.None? then [] else [FValue(e.value.value)] }
  function DeltaField(e: LogEntry): seq<EntryField> { if IsZeroFloat(e.delta) then [] else [FDelta(e.delta)] }
  function TtlField(e: LogEntry): seq<EntryField> { if e.ttl == 0 then [] else [FTtl(e.ttl)] }

  /** The fields that are sent. */
  function FieldsOf(e: LogEntry): seq<EntryField> {
    Required(e) + NodeField(e) + ValueField(e) + DeltaField(e) + TtlField(e)
  }

  predicate ValidField(f: EntryField) {
    match f
    case FSeq(u) => IsUint64(u)
    case FTs(t) => ValidTimestamp(t)
    case FBorn(i) => IsInt64(i)
    case FOp(o) => 0 <= o < 256
    case FKey(k) => Sized(k)
    case FNode(n) => Sized(n)
    case FValue(v) => Sized(v)
    case FDelta(bits) => IsUint64(bits)
    case FTtl(i) => IsInt64(i)
  }

  predicate ValidFields(fs: seq<EntryField>) {
    forall i :: 0 <= i < |fs| ==> ValidField(fs[i])
  }

  function NameOf(f: EntryField): (n: Bytes)
    ensures 1 <= |n| <= 3
  {
    match f
    case FSeq(_) => S
    case FTs(_) => T
    case FBorn(_) => BA
    case FOp(_) => O
    case FKey(_) => K
    case FNode(_) => N
    case FValue(_) => V
    case FDelta(_) => D
    case FTtl(_) => TTL
  }

  function Payload(f: EntryField): Bytes
    requires ValidField(f)
  {
    match f
    case FSeq(u) => AppendUint(u)
    case FTs(t) => EncodeTimestamp(t)
    case FBorn(i) => AppendInt(i)
    case FOp(o) => AppendUint(o)
    case FKey(k) => AppendString(k)
    case FNode(n) => AppendString(n)
    case FValue(v) => AppendBytes(v)
    case FDelta(bits) => AppendFloat64(bits)
    case FTtl(i) => AppendInt(i)
  }

  function EncodeField(f: EntryField): Bytes
    requires ValidField(f)
  {
    Field(NameOf(f), Payload(f))
  }

  function Encoded(fs: seq<EntryField>): seq<Bytes>
    requires ValidFields(fs)
  {
    seq(|fs|, i requires 0 <= i < |fs| => EncodeField(fs[i]))
  }

  lemma FieldsOfValid(e: LogEntry)
    requires ValidEntry(e)
    ensures ValidFields(FieldsOf(e)) && 5 <= |FieldsOf(e)| <= 9
  {
  }

  /** The bytes of an entry: a map header and its fields. */
  function EncodeEntry(e: LogEntry): Bytes
    requires ValidEntry(e)
  {
    FieldsOfValid(e);
    [0x80 + |FieldsOf(e)|] + Concat(Encoded(FieldsOf(e)))
  }

  /** Decoding an empty byte string into a nil slice leaves it nil. */
  function NonEmpty(v: Bytes): Option<Bytes> { if v == [] then None else Some(v) }

  function EntryFieldDecoder(name: Bytes, b: Bytes, z: LogEntry): Result<LogEntry> {
    if name == S then Keep(ReadUint64(b), x => z.(seqNo := x))
    else if name == T then Keep(DecodeMap(b, z.ts, TimestampField), x => z.(ts := x))
    else if name == BA then Keep(ReadInt64(b), x => z.(bornAt := x))
    else if name == O then Keep(ReadByte(b), x => z.(op := x))
    else if name == K then Keep(ReadString(b), x => z.(key := x))
    else if name == N then Keep(ReadString(b), x => z.(nodeID := x))
    else if name == V then
      Keep(ReadBin(b), x => z.(value := if z.value.None? then NonEmpty(x) else Some(x)))
    else if name == D then Keep(ReadFloat64(b), x => z.(delta := x))
    else if name == TTL then Keep(ReadInt64(b), x => z.(ttl := x))
    else SkipField(b, z)
  }

  /** Decoding into a fresh entry. */
  function DecodeEntry(b: Bytes): Result<LogEntry> {
    DecodeMap(b, ZERO_ENTRY, EntryFieldDecoder)
  }

  function Assign(z: LogEntry, f: EntryField): LogEntry {
    match f
    case FSeq(u) => z.(seqNo := u)
    case FTs(t) => z.(ts := t)
    case FBorn(i) => z.(bornAt := i)
    case FOp(o) => z.(op := o)
    case FKey(k) => z.(key := k)
    case FNode(n) => z.(nodeID := n)
    case FValue(v) => z.(value := if z.value.None? then NonEmpty(v) else Some(v))
    case FDelta(bits) => z.(delta := bits)
    case FTtl(i) => z.(ttl := i)
  }

  lemma DecodePayload(f: EntryField, rest: Bytes, z: LogEntry)
    requires ValidField(f)
    ensures EntryFieldDecoder(NameOf(f), Payload(f) + rest, z) == Ok(Assign(z, f), rest)
  {
    match f
    case FSeq(u) => ReadAppendUint(u, rest);
    case FTs(t) => TimestampRoundTrip(t, z.ts, rest);
    case FBorn(i) => ReadAppendInt(i, rest);
    case FOp(o) => ReadAppendUint(o, rest);
    case FKey(k) => ReadAppendString(k, rest);
    case FNode(n) => ReadAppendString(n, rest);
    case FValue(v) => ReadAppendBytes(v, rest);
    case FDelta(bits) => ReadAppendFloat64(bits, rest);
    case FTtl(i) => ReadAppendInt(i, rest);
  }

  lemma DecodeEncodedFields(fs: seq<EntryField>, rest: Bytes, z: LogEntry)
    requires ValidFields(fs)
    ensures DecodeFields(|fs|, Concat(Encoded(fs)) + rest, z, EntryFieldDecoder) == Ok(Fold(z, fs, Assign), rest)
  {
    var names := seq(|fs|, i requires 0 <= i < |fs| => NameOf(fs[i]));
    var payloads := seq(|fs|, i requires 0 <= i < |fs| => Payload(fs[i]));
    forall i, r: Bytes, y: LogEntry | 0 <= i < |fs|
      ensures EntryFieldDecoder(names[i], payloads[i] + r, y) == Ok(Assign(y, fs[i]), r)
    {
      DecodePayload(fs[i], r, y);
    }
    DecodeEncoded(fs, names, payloads, Encoded(fs), rest, z, EntryFieldDecoder, Assign);
  }

  /** What an entry becomes on its way: an empty value turns nil, negative zero turns zero. */
  function Normal(e: LogEntry): LogEntry {
    e.(value := if e.value == Some([]) then None else e.value,
       delta := if IsZeroFloat(e.delta) then 0 else e.delta)
  }

  lemma AssignRequired(e: LogEntry)
    ensures Fold(ZERO_ENTRY, Required(e), Assign)
            == LogEntry(e.seqNo, e.ts, e.bornAt, e.op, e.key, [], None, 0, 0)
  {
    var r := Required(e);
    var z1 := ZERO_ENTRY.(seqNo := e.seqNo);
    var z2 := z1.(ts := e.ts);
    var z3 := z2.(bornAt := e.bornAt);
    var z4 := z3.(op := e.op);
    assert Fold(ZERO_ENTRY, r, Assign) == Fold(z1, r[1..], Assign);
    assert Fold(z1, r[1..], Assign) == Fold(z2, r[2..], Assign) by { assert r[1..][1..] == r[2..]; }
    assert Fold(z2, r[2..], Assign) == Fold(z3, r[3..], Assign) by { assert r[2..][1..] == r[3..]; }
    assert Fold(z3, r[3..], Assign) == Fold(z4, r[4..], Assign) by { assert r[3..][1..] == r[4..]; }
    assert Fold(z4, r[4..], Assign) == Fold(z4.(key := e.key), r[5..], Assign) by { assert r[4..][1..] == r[5..]; }
  }

  lemma AssignFieldsOf(e: LogEntry)
    ensures Fold(ZERO_ENTRY, FieldsOf(e), Assign) == Normal(e)
  {
    AssignRequired(e);
    var required := Required(e);
    var n, v, d, t := NodeField(e), ValueField(e), DeltaField(e), TtlField(e);
    FoldAppended(ZERO_ENTRY, required, n, Assign);
    FoldAppended(ZERO_ENTRY, required + n, v, Assign);
    FoldAppended(ZERO_ENTRY, required + n + v, d, Assign);
    FoldAppended(ZERO_ENTRY, required + n + v + d, t, Assign);
  }

  /** Every entry decodes, whatever follows it, to itself up to `Normal`, and leaves
      exactly the bytes that follow. */
  lemma EntryRoundTrip(e: LogEntry, rest: Bytes)
    requires ValidEntry(e)
    ensures DecodeEntry(EncodeEntry(e) + rest) == Ok(Normal(e), rest)
  {
    FieldsOfValid(e);
    var body := Concat(Encoded(FieldsOf(e))) + rest;
    assert EncodeEntry(e) + rest == [0x80 + |FieldsOf(e)|] + body;
    DecodeSmallMap(|FieldsOf(e)|, body, ZERO_ENTRY, EntryFieldDecoder);
    DecodeEncodedFields(FieldsOf(e), rest, ZERO_ENTRY);
    AssignFieldsOf(e);
  }

  /** An entry survives the wire exactly when its value is not empty but non-nil and its
      delta is not negative zero. */
  lemma EntryFaithful(e: LogEntry, rest: Bytes)
    requires ValidEntry(e)
    ensures DecodeEntry(EncodeEntry(e) + rest) == Ok(e, rest) <==> e.value != Some([]) && e.delta != TWO63
  {
    EntryRoundTrip(e, rest);
  }

  // ---------------------------------------------------------------- sizes

  /** The size estimate that `Append` relies on to write in place. */
  function EntrySize(e: LogEntry): nat {
    1 + 2 + 9 + 2 + (1 + 2 + 9 + 2 + 5) + 3 + 9 + 2 + 2 + 2 + 5 + |e.key| + 2 + 5 + |e.nodeID|
    + 2 + 5 + (if e.value.Some? then |e.value.value| else 0) + 2 + 9 + 4 + 9
  }

  function FieldSize(f: EntryField): nat {
    match f
    case FSeq(_) => 2 + 9
    case FTs(_) => 2 + 19
    case FBorn(_) => 3 + 9
    case FOp(_) => 2 + 2
    case FKey(k) => 2 + 5 + |k|
    case FNode(n) => 2 + 5 + |n|
    case FValue(v) => 2 + 5 + |v|
    case FDelta(_) => 2 + 9
    case FTtl(_) => 4 + 9
  }

  function FieldSizes(fs: seq<EntryField>): nat {
    if fs == [] then 0 else FieldSize(fs[0]) + FieldSizes(fs[1..])
  }

  lemma FieldFits(f: EntryField)
    requires ValidField(f)
    ensures |EncodeField(f)| <= FieldSize(f)
  {
    match f
    case FSeq(u) => ReadAppendUint(u, []);
    case FTs(t) => TimestampFits(t);
    case FBorn(i) => ReadAppendInt(i, []);
    case FOp(o) => ReadAppendUint(o, []);
    case FKey(k) => ReadAppendString(k, []);
    case FNode(n) => ReadAppendString(n, []);
    case FValue(v) => ReadAppendBytes(v, []);
    case FDelta(bits) =>
    case FTtl(i) => ReadAppendInt(i, []);
  }

  lemma {:induction false} FieldsFit(fs: seq<EntryField>)
    requires ValidFields(fs)
    ensures |Concat(Encoded(fs))| <= FieldSizes(fs)
  {
    if fs != [] {
      FieldFits(fs[0]);
      assert Encoded(fs)[1..] == Encoded(fs[1..]);
      FieldsFit(fs[1..]);
    }
  }

  lemma {:induction false} SizesAppended(fs: seq<EntryField>, gs: seq<EntryField>)
    ensures FieldSizes(fs + gs) == FieldSizes(fs) + FieldSizes(gs)
  {
    if fs == [] {
      assert fs + gs == gs;
    } else {
      assert (fs + gs)[1..] == fs[1..] + gs;
      SizesAppended(fs[1..], gs);
    }
  }

  lemma RequiredSizes(e: LogEntry)
    ensures FieldSizes(Required(e)) == 55 + |e.key|
  {
    var r := Required(e);
    SizesAppended([r[0]], [r[1]]);
    SizesAppended([r[0]] + [r[1]], [r[2]]);
    SizesAppended([r[0]] + [r[1]] + [r[2]], [r[3]]);
    SizesAppended([r[0]] + [r[1]] + [r[2]] + [r[3]], [r[4]]);
    assert r == [r[0]] + [r[1]] + [r[2]] + [r[3]] + [r[4]];
  }

  /** The estimate bounds the encoding of every entry. */
  lemma EntryFits(e: LogEntry)
    requires ValidEntry(e)
    ensures 1 <= |EncodeEntry(e)| <= EntrySize(e)
  {
    FieldsOfValid(e);
    FieldsFit(FieldsOf(e));
    RequiredSizes(e);
    var required := Required(e);
    var n, v, d, t := NodeField(e), ValueField(e), DeltaField(e), TtlField(e);
    SizesAppended(required, n);
    SizesAppended(required + n, v);
    SizesAppended(required + n + v, d);
    SizesAppended(required + n + v + d, t);
  }

  // ---------------------------------------------------------------- an entry is one object

  /** A map header with as many fields as it announces is one object. */
  lemma MapIsObject(xs: seq<Bytes>)
    requires |xs| < 16 && forall i :: 0 <= i < |xs| ==> Passes(xs[i], 2, 0)
    ensures IsObject([0x80 + |xs|] + Concat(xs))
  {
    SmallMapHeader(|xs|);
    ConcatPasses(xs);
    PassesBoth([0x80 + |xs|], Concat(xs), 1, 2 * |xs|, 2 * |xs|, 0);
  }

  lemma FieldPasses(name: Bytes, payload: Bytes)
    requires |name| < 32 && IsObject(payload)
    ensures Passes(Field(name, payload), 2, 0)
  {
    StringIsObject(name);
    assert AppendString(name) == [0xa0 + |name|] + name;
    PassesAfter(AppendString(name), payload, 1, 1);
  }

  lemma TimestampIsObject(t: Timestamp)
    requires ValidTimestamp(t)
    ensures IsObject(EncodeTimestamp(t))
  {
    IntegersAreObjects(t.physical);
    IntegersAreObjects(t.logical);
    FieldPasses(P, AppendInt(t.physical));
    FieldPasses(L, AppendInt(t.logical));
    MapIsObject([Field(P, AppendInt(t.physical)), Field(L, AppendInt(t.logical))]);
  }

  lemma PayloadIsObject(f: EntryField)
    requires ValidField(f)
    ensures IsObject(Payload(f))
  {
    match f {
      case FSeq(u) => IntegersAreObjects(u);
      case FTs(t) => TimestampIsObject(t);
      case FBorn(i) => IntegersAreObjects(i);
      case FOp(o) => IntegersAreObjects(o);
      case FKey(k) => StringIsObject(k);
      case FNode(n) => StringIsObject(n);
      case FValue(v) => BytesIsObject(v);
      case FDelta(bits) => IntegersAreObjects(bits);
      case FTtl(i) => IntegersAreObjects(i);
    }
  }

  /** A decoder that does not know entries steps over exactly one of them. */
  lemma EntryIsObject(e: LogEntry)
    requires ValidEntry(e)
    ensures IsObject(EncodeEntry(e))
  {
    FieldsOfValid(e);
    var fs := FieldsOf(e);
    forall i | 0 <= i < |fs| ensures Passes(Encoded(fs)[i], 2, 0) {
      PayloadIsObject(fs[i]);
      FieldPasses(NameOf(fs[i]), Payload(fs[i]));
    }
    MapIsObject(Encoded(fs));
  }

  // ---------------------------------------------------------------- the entry codec as loops

  lemma EncodeOneMore(fs: seq<EntryField>, f: EntryField)
    requires ValidFields(fs) && ValidField(f)
    ensures ValidFields(fs + [f])
    ensures Concat(Encoded(fs + [f])) == Concat(Encoded(fs)) + EncodeField(f)
  {
    assert Encoded(fs + [f]) == Encoded(fs) + [EncodeField(f)];
    ConcatOneMore(Encoded(fs), EncodeField(f));
  }

  /** Appends the name and value of one field. */
  method AppendField(body: Bytes, f: EntryField, ghost sent: seq<EntryField>) returns (o: Bytes)
    requires ValidField(f) && ValidFields(sent) && body == Concat(Encoded(sent))
    ensures ValidFields(sent + [f]) && o == Concat(Encoded(sent + [f]))
  {
    EncodeOneMore(sent, f);
    o := body + EncodeField(f);
  }

  method AppendOptional(body: Bytes, fs: seq<EntryField>, ghost sent: seq<EntryField>) returns (o: Bytes)
    requires |fs| <= 1 && ValidFields(fs) && ValidFields(sent) && body == Concat(Encoded(sent))
    ensures ValidFields(sent + fs) && o == Concat(Encoded(sent + fs))
  {
    if fs == [] {
      assert sent + fs == sent;
      o := body;
    } else {
      assert fs == [fs[0]];
      o := AppendField(body, fs[0], sent);
    }
  }

  method AppendRequired(e: LogEntry) returns (o: Bytes)
    requires ValidEntry(e)
    ensures ValidFields(Required(e)) && o == Concat(Encoded(Required(e)))
  {
    ghost var r := Required(e);
    o := AppendField([], FSeq(e.seqNo), []);
    assert [] + [r[0]] == r[..1];
    o := AppendField(o, FTs(e.ts), r[..1]);
    assert r[..1] + [r[1]] == r[..2];
    o := AppendField(o, FBorn(e.bornAt), r[..2]);
    assert r[..2] + [r[2]] == r[..3];
    o := AppendField(o, FOp(e.op), r[..3]);
    assert r[..3] + [r[3]] == r[..4];
    o := AppendField(o, FKey(e.key), r[..4]);
    assert r[..4] + [r[4]] == r;
  }

  method CountFields(e: LogEntry) returns (count: nat)
    ensures count == |FieldsOf(e)| <= 9
  {
    count := 9;
    if e.nodeID == [] { count := count - 1; }
    if e.value.None? { count := count - 1; }
    if IsZeroFloat(e.delta) { count := count - 1; }
    if e.ttl == 0 { count := count - 1; }
  }

  lemma OptionalFieldsValid(e: LogEntry)
    requires ValidEntry(e)
    ensures ValidFields(NodeField(e)) && ValidFields(ValueField(e))
    ensures ValidFields(DeltaField(e)) && ValidFields(TtlField(e))
  {
  }

  method AppendFields(e: LogEntry) returns (o: Bytes)
    requires ValidEntry(e)
    ensures ValidFields(FieldsOf(e)) && o == Concat(Encoded(FieldsOf(e)))
  {
    OptionalFieldsValid(e);
    ghost var r, n, v, d := Required(e), NodeField(e), ValueField(e), DeltaField(e);
    o := AppendRequired(e);
    o := AppendOptional(o, NodeField(e), r);
    o := AppendOptional(o, ValueField(e), r + n);
    o := AppendOptional(o, DeltaField(e), r + n + v);
    o := AppendOptional(o, TtlField(e), r + n + v + d);
  }

  /** The map header in front of the fields. */
  method AppendHeader(count: nat, body: Bytes, ghost fs: seq<EntryField>) returns (o: Bytes)
    requires ValidFields(fs) && count == |fs| <= 9 && body == Concat(Encoded(fs))
    ensures o == [0x80 + |fs|] + Concat(Encoded(fs))
  {
    var header: Byte := 0x80 + count;
    o := [header] + body;
  }

  method EntryBytes(e: LogEntry) returns (o: Bytes)
    requires ValidEntry(e)
    ensures o == EncodeEntry(e)
  {
    var count := CountFields(e);
    var body := AppendFields(e);
    o := AppendHeader(count, body, FieldsOf(e));
  }

  method MarshalEntry(e: LogEntry, b: Bytes) returns (o: Bytes)
    requires ValidEntry(e)
    ensures o == b + EncodeEntry(e)
  {
    var bytes := EntryBytes(e);
    o := b + bytes;
  }

  method UnmarshalEntry(b: Bytes) returns (r: Result<LogEntry>)
    ensures r == DecodeEntry(b)
  {
    r := UnmarshalMap(b, ZERO_ENTRY, EntryFieldDecoder);
  }
}
