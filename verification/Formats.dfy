/** The bytes on the wire, literally: the formats of numbers, strings and headers, the names
    and the order of the fields of every message, and what a decoder accepts of the formats
    that the encoders do not choose. */
module Formats {
  import opened Wrappers
  import opened MessagePack
  import opened Clock
  import opened Wire
  import opened Framing

  // ---------------------------------------------------------------- numbers

  function OfTwo(a: nat, b: nat): nat { 256 * a + b }

  function OfFour(a: nat, b: nat, c: nat, d: nat): nat { 16_777_216 * a + 65_536 * b + 256 * c + d }

  /** The number that bytes spell, most significant first. */
  function Spelled(b: Bytes): nat
    requires |b| in {1, 2, 4, 8}
  {
    if |b| == 1 then b[0]
    else if |b| == 2 then OfTwo(b[0], b[1])
    else if |b| == 4 then OfFour(b[0], b[1], b[2], b[3])
    else 4_294_967_296 * OfFour(b[0], b[1], b[2], b[3]) + OfFour(b[4], b[5], b[6], b[7])
  }

  lemma NumberOneMore(b: Bytes, x: Byte)
    ensures Number(b + [x]) == 256 * Number(b) + x
  {
    assert (b + [x])[..|b|] == b;
  }

  lemma NumberOfFour(high: Bytes, a: Byte, b: Byte, c: Byte, d: Byte)
    ensures Number(high + [a, b, c, d])
            == 4_294_967_296 * Number(high) + OfFour(a, b, c, d)
  {
    NumberOneMore(high, a);
    NumberOneMore(high + [a], b);
    NumberOneMore(high + [a] + [b], c);
    NumberOneMore(high + [a] + [b] + [c], d);
    assert high + [a, b, c, d] == high + [a] + [b] + [c] + [d];
  }

  lemma NumberOfTwo(a: Byte, b: Byte)
    ensures Number([a]) == a && Number([a, b]) == OfTwo(a, b)
  {
    NumberOneMore([], a);
    NumberOneMore([a], b);
    assert [] + [a] == [a] && [a] + [b] == [a, b];
  }

  lemma NumberIsSpelled(b: Bytes)
    requires |b| in {1, 2, 4, 8}
    ensures Number(b) == Spelled(b)
  {
    if |b| == 1 {
      NumberOfTwo(b[0], b[0]);
      assert b == [b[0]];
    } else if |b| == 2 {
      NumberOfTwo(b[0], b[1]);
      assert b == [b[0], b[1]];
    } else if |b| == 4 {
      NumberOfFour([], b[0], b[1], b[2], b[3]);
      assert b == [] + [b[0], b[1], b[2], b[3]];
    } else {
      NumberOfFour([], b[0], b[1], b[2], b[3]);
      NumberOfFour([] + [b[0], b[1], b[2], b[3]], b[4], b[5], b[6], b[7]);
      assert b == [] + [b[0], b[1], b[2], b[3]] + [b[4], b[5], b[6], b[7]];
    }
  }

  /** A format byte and the n bytes that spell x. */
  predicate Spells(b: Bytes, tag: Byte, x: nat, n: nat)
    requires n in {1, 2, 4, 8}
  {
    |b| == 1 + n && b[0] == tag && Spelled(b[1..]) == x
  }

  lemma TaggedSpells(tag: Byte, x: nat, n: nat)
    requires n in {1, 2, 4, 8} && x < Pow256(n)
    ensures Spells(Tagged(tag, x, n), tag, x, n)
  {
    NumberOfBigEndian(x, n);
    NumberIsSpelled(BigEndian(x, n));
    assert Tagged(tag, x, n)[1..] == BigEndian(x, n);
  }

  lemma AnyTaggedSpells(tag: Byte)
    ensures forall x: nat :: x < 256 ==> Spells(Tagged(tag, x, 1), tag, x, 1)
    ensures forall x: nat :: x < 65_536 ==> Spells(Tagged(tag, x, 2), tag, x, 2)
    ensures forall x: nat :: x < 4_294_967_296 ==> Spells(Tagged(tag, x, 4), tag, x, 4)
    ensures forall x: nat :: x < 18_446_744_073_709_551_616 ==> Spells(Tagged(tag, x, 8), tag, x, 8)
  {
    Powers();
    forall x: nat | x < 256 ensures Spells(Tagged(tag, x, 1), tag, x, 1) { TaggedSpells(tag, x, 1); }
    forall x: nat | x < 65_536 ensures Spells(Tagged(tag, x, 2), tag, x, 2) { TaggedSpells(tag, x, 2); }
    forall x: nat | x < 4_294_967_296 ensures Spells(Tagged(tag, x, 4), tag, x, 4) { TaggedSpells(tag, x, 4); }
    forall x: nat | x < 18_446_744_073_709_551_616 ensures Spells(Tagged(tag, x, 8), tag, x, 8) {
      TaggedSpells(tag, x, 8);
    }
  }

  /** Unsigned integers take the shortest format. */
  lemma UintFormats(u: int)
    requires 0 <= u <= 18_446_744_073_709_551_615
    ensures var b := AppendUint(u);
            if u <= 127 then b == [u]
            else if u <= 255 then Spells(b, 0xcc, u, 1)
            else if u <= 65_535 then Spells(b, 0xcd, u, 2)
            else if u <= 4_294_967_295 then Spells(b, 0xce, u, 4)
            else Spells(b, 0xcf, u, 8)
  {
    AnyTaggedSpells(0xcc);
    AnyTaggedSpells(0xcd);
    AnyTaggedSpells(0xce);
    AnyTaggedSpells(0xcf);
  }

  /** Signed integers take the shortest signed format, negative ones in two's complement. */
  lemma IntFormats(i: int)
    requires -9_223_372_036_854_775_808 <= i <= 9_223_372_036_854_775_807
    ensures var b := AppendInt(i);
            if -32 <= i <= 127 then b == [if i < 0 then i + 256 else i]
            else if -128 <= i < 0 then Spells(b, 0xd0, i + 256, 1)
            else if -32_768 <= i <= 32_767 then Spells(b, 0xd1, if i < 0 then i + 65_536 else i, 2)
            else if -2_147_483_648 <= i <= 2_147_483_647 then
              Spells(b, 0xd2, if i < 0 then i + 4_294_967_296 else i, 4)
            else Spells(b, 0xd3, if i < 0 then i + 18_446_744_073_709_551_616 else i, 8)
  {
    AnyTaggedSpells(0xd0);
    AnyTaggedSpells(0xd1);
    AnyTaggedSpells(0xd2);
    AnyTaggedSpells(0xd3);
  }

  lemma FloatFormat(bits: int)
    requires 0 <= bits <= 18_446_744_073_709_551_615
    ensures Spells(AppendFloat64(bits), 0xcb, bits, 8)
  {
    AnyTaggedSpells(0xcb);
  }

  // ---------------------------------------------------------------- strings, arrays

  lemma StringFormats(s: Bytes)
    requires |s| <= 4_294_967_295
    ensures var b, n := AppendString(s), |s|;
            if n <= 31 then b == [0xa0 + n] + s
            else if n <= 255 then |b| == 2 + n && Spells(b[..2], 0xd9, n, 1) && b[2..] == s
            else if n <= 65_535 then |b| == 3 + n && Spells(b[..3], 0xda, n, 2) && b[3..] == s
            else |b| == 5 + n && Spells(b[..5], 0xdb, n, 4) && b[5..] == s
  {
    AnyTaggedSpells(0xd9);
    AnyTaggedSpells(0xda);
    AnyTaggedSpells(0xdb);
    assert (StringHeader(|s|) + s)[..|StringHeader(|s|)|] == StringHeader(|s|);
  }

  lemma BytesFormats(s: Bytes)
    requires |s| <= 4_294_967_295
    ensures var b, n := AppendBytes(s), |s|;
            if n <= 255 then |b| == 2 + n && Spells(b[..2], 0xc4, n, 1) && b[2..] == s
            else if n <= 65_535 then |b| == 3 + n && Spells(b[..3], 0xc5, n, 2) && b[3..] == s
            else |b| == 5 + n && Spells(b[..5], 0xc6, n, 4) && b[5..] == s
  {
    AnyTaggedSpells(0xc4);
    AnyTaggedSpells(0xc5);
    AnyTaggedSpells(0xc6);
    assert (BinHeader(|s|) + s)[..|BinHeader(|s|)|] == BinHeader(|s|);
  }

  lemma ArrayFormats(n: nat)
    requires n <= 4_294_967_295
    ensures if n <= 15 then ArrayHeader(n) == [0x90 + n]
            else if n <= 65_535 then Spells(ArrayHeader(n), 0xdc, n, 2)
            else Spells(ArrayHeader(n), 0xdd, n, 4)
  {
    AnyTaggedSpells(0xdc);
    AnyTaggedSpells(0xdd);
  }

  // ---------------------------------------------------------------- what decoders accept

  lemma ReadSpelled(tag: Byte, body: Bytes, rest: Bytes)
    requires |body| in {1, 2, 4, 8}
    ensures ReadNumber([tag] + body + rest, |body|) == Ok(Spelled(body), rest)
  {
    NumberIsSpelled(body);
    var b := [tag] + body + rest;
    assert b[1..1 + |body|] == body && b[1 + |body|..] == rest;
  }

  function TwosComplement(x: nat, modulus: nat): int { if 2 * x < modulus then x else x - modulus }

  lemma ReadsUnsigned(tag: Byte, body: Bytes, rest: Bytes)
    requires |body| in {1, 2, 4, 8}
    requires tag as int == match |body| case 1 => 0xcc case 2 => 0xcd case 4 => 0xce case _ => 0xcf
    ensures ReadInteger([tag] + body + rest) == Ok(Spelled(body), rest)
  {
    ReadSpelled(tag, body, rest);
    assert ([tag] + body + rest)[0] == tag;
  }

  lemma SignedIs(x: nat, rest: Bytes, modulus: nat)
    requires modulus % 2 == 0
    ensures Signed(Ok(x, rest), modulus) == Ok(TwosComplement(x, modulus), rest)
  {
  }

  lemma ReadsSigned8(body: Bytes, rest: Bytes)
    requires |body| == 1
    ensures ReadInteger([0xd0] + body + rest) == Ok(TwosComplement(Spelled(body), 256), rest)
  {
    ReadSpelled(0xd0, body, rest);
    SignedIs(Spelled(body), rest, 256);
    var b := [0xd0] + body + rest;
    assert b[0] == 0xd0;
  }

  lemma ReadsSigned16(body: Bytes, rest: Bytes)
    requires |body| == 2
    ensures ReadInteger([0xd1] + body + rest) == Ok(TwosComplement(Spelled(body), 65_536), rest)
  {
    ReadSpelled(0xd1, body, rest);
    SignedIs(Spelled(body), rest, 65_536);
    var b := [0xd1] + body + rest;
    assert b[0] == 0xd1;
  }

  lemma ReadsSigned32(body: Bytes, rest: Bytes)
    requires |body| == 4
    ensures ReadInteger([0xd2] + body + rest) == Ok(TwosComplement(Spelled(body), 4_294_967_296), rest)
  {
    ReadSpelled(0xd2, body, rest);
    SignedIs(Spelled(body), rest, 4_294_967_296);
    var b := [0xd2] + body + rest;
    assert b[0] == 0xd2;
  }

  lemma ReadsSigned64(body: Bytes, rest: Bytes)
    requires |body| == 8
    ensures ReadInteger([0xd3] + body + rest) == Ok(TwosComplement(Spelled(body), 18_446_744_073_709_551_616), rest)
  {
    ReadSpelled(0xd3, body, rest);
    SignedIs(Spelled(body), rest, 18_446_744_073_709_551_616);
    var b := [0xd3] + body + rest;
    assert b[0] == 0xd3;
  }

  /** Every integer format is read, whatever the encoder would have chosen: four unsigned and four
      signed widths, and the two that fit into the format byte. */
  lemma ReadsEveryInteger(body: Bytes, rest: Bytes, tag: Byte)
    requires |body| in {1, 2, 4, 8}
    ensures tag < 0x80 ==> ReadInteger([tag] + rest) == Ok(tag as int, rest)
    ensures tag >= 0xe0 ==> ReadInteger([tag] + rest) == Ok(tag as int - 256, rest)
    ensures (tag, |body|) in {(0xcc, 1), (0xcd, 2), (0xce, 4), (0xcf, 8)} ==>
              ReadInteger([tag] + body + rest) == Ok(Spelled(body), rest)
    ensures (tag, |body|) == (0xd0, 1) ==>
              ReadInteger([tag] + body + rest) == Ok(TwosComplement(Spelled(body), 256), rest)
    ensures (tag, |body|) == (0xd1, 2) ==>
              ReadInteger([tag] + body + rest) == Ok(TwosComplement(Spelled(body), 65_536), rest)
    ensures (tag, |body|) == (0xd2, 4) ==>
              ReadInteger([tag] + body + rest) == Ok(TwosComplement(Spelled(body), 4_294_967_296), rest)
    ensures (tag, |body|) == (0xd3, 8) ==>
              ReadInteger([tag] + body + rest)
              == Ok(TwosComplement(Spelled(body), 18_446_744_073_709_551_616), rest)
  {
    assert ([tag] + rest)[1..] == rest;
    if (tag, |body|) in {(0xcc, 1), (0xcd, 2), (0xce, 4), (0xcf, 8)} {
      ReadsUnsigned(tag, body, rest);
    } else if (tag, |body|) == (0xd0, 1) {
      ReadsSigned8(body, rest);
    } else if (tag, |body|) == (0xd1, 2) {
      ReadsSigned16(body, rest);
    } else if (tag, |body|) == (0xd2, 4) {
      ReadsSigned32(body, rest);
    } else if (tag, |body|) == (0xd3, 8) {
      ReadsSigned64(body, rest);
    }
  }

  /** Nothing else is an integer, and each type takes exactly the integers in its range. */
  lemma IntegerRanges(b: Bytes)
    ensures b == [] || 0x80 <= b[0] < 0xcc || 0xd3 < b[0] < 0xe0 ==> ReadInteger(b) == Err
    ensures var r := ReadInteger(b);
            && ReadUint64(b) == (if r.Ok? && 0 <= r.value <= 18_446_744_073_709_551_615 then r else Err)
            && ReadInt64(b) == (if r.Ok? && -9_223_372_036_854_775_808 <= r.value <= 9_223_372_036_854_775_807
                                then r else Err)
            && ReadInt32(b) == (if r.Ok? && -2_147_483_648 <= r.value <= 2_147_483_647 then r else Err)
            && ReadByte(b) == (if r.Ok? && 0 <= r.value <= 255 then r else Err)
  {
  }

  /** A float64 is read bit by bit, a float32 is widened, and nothing else is a float. */
  lemma ReadsEveryFloat(body: Bytes, rest: Bytes, b: Bytes)
    requires |body| in {4, 8}
    ensures |body| == 8 ==> ReadFloat64([0xcb] + body + rest) == Ok(Spelled(body), rest)
    ensures |body| == 4 ==> ReadFloat64([0xca] + body + rest) == Ok(Widened(Spelled(body)), rest)
    ensures b == [] || b[0] !in {0xca, 0xcb} ==> ReadFloat64(b) == Err
  {
    ReadSpelled(0xcb, body, rest);
    ReadSpelled(0xca, body, rest);
  }

  lemma ReadsStringHeaders(tag: Byte, body: Bytes, rest: Bytes)
    requires |body| in {1, 2, 4}
    ensures tag as int == (match |body| case 1 => 0xd9 case 2 => 0xda case _ => 0xdb) ==>
              ReadStringHeader([tag] + body + rest) == Ok(Spelled(body), rest)
    ensures tag as int == (match |body| case 1 => 0xc4 case 2 => 0xc5 case _ => 0xc6) ==>
              ReadBinHeader([tag] + body + rest) == Ok(Spelled(body), rest)
  {
    ReadSpelled(tag, body, rest);
    assert ([tag] + body + rest)[0] == tag;
  }

  lemma ReadsListHeaders(tag: Byte, body: Bytes, rest: Bytes)
    requires |body| in {2, 4}
    ensures tag as int == (if |body| == 2 then 0xdc else 0xdd) ==>
              ReadArrayHeader([tag] + body + rest) == Ok(Spelled(body), rest)
    ensures tag as int == (if |body| == 2 then 0xde else 0xdf) ==>
              ReadMapHeader([tag] + body + rest) == Ok(Spelled(body), rest)
  {
    ReadSpelled(tag, body, rest);
    assert ([tag] + body + rest)[0] == tag;
  }

  /** The headers within one byte. */
  lemma ReadsShortHeaders(n: nat, rest: Bytes)
    ensures n <= 31 ==> ReadStringHeader([0xa0 + n] + rest) == Ok(n, rest)
    ensures n <= 15 ==> ReadArrayHeader([0x90 + n] + rest) == Ok(n, rest)
    ensures n <= 15 ==> ReadMapHeader([0x80 + n] + rest) == Ok(n, rest)
  {
    forall tag: Byte ensures ([tag] + rest)[1..] == rest {
    }
  }

  // ---------------------------------------------------------------- messages

  lemma TwoFields(x: Bytes, y: Bytes)
    ensures Concat([x]) == x && Concat([x, y]) == x + y
  {
    ConcatOneMore([], x);
    ConcatOneMore([x], y);
    assert [] + [x] == [x] && [x] + [y] == [x, y] && [] + x == x;
  }

  lemma ThreeFields(x: Bytes, y: Bytes, z: Bytes)
    ensures Concat([x, y, z]) == x + y + z
  {
    TwoFields(x, y);
    ConcatOneMore([x, y], z);
    assert [x, y] + [z] == [x, y, z];
  }

  lemma TimestampFormat(t: Timestamp)
    requires ValidTimestamp(t)
    ensures EncodeTimestamp(t)
            == [0x82] + ([0xa1, 0x70] + AppendInt(t.physical)) + ([0xa1, 0x6c] + AppendInt(t.logical))
  {
    TwoFields(Field(P, AppendInt(t.physical)), Field(L, AppendInt(t.logical)));
  }

  lemma HandshakeFormat(h: Handshake)
    requires ValidHandshake(h)
    ensures EncodeHandshake(h)
            == if h.authToken == [] then [0x81] + ([0xa2, 0x6c, 0x73] + AppendUint(h.lastSeenSeq))
               else [0x82] + ([0xa2, 0x6c, 0x73] + AppendUint(h.lastSeenSeq))
                           + ([0xa2, 0x61, 0x74] + AppendString(h.authToken))
  {
    TwoFields(Field(LS, AppendUint(h.lastSeenSeq)), Field(AT, AppendString(h.authToken)));
  }

  lemma EntriesHead(es: seq<Bytes>)
    requires es != [] && forall i :: 0 <= i < |es| ==> Sized(es[i])
    ensures EncodedEntries(es) == [AppendBytes(es[0])] + EncodedEntries(es[1..])
  {
    var xs, ys := EncodedEntries(es), [AppendBytes(es[0])] + EncodedEntries(es[1..]);
    forall i | 0 <= i < |es| ensures xs[i] == ys[i] {
      assert xs[i] == AppendBytes(es[i]);
    }
  }

  lemma ConcatHead(x: Bytes, xs: seq<Bytes>)
    ensures Concat([x] + xs) == x + Concat(xs)
  {
    assert ([x] + xs)[1..] == xs;
  }

  /** The entries of a batch are an array of byte strings, in order. */
  lemma EntriesFormat(es: seq<Bytes>)
    requires |es| < TWO32 && forall i :: 0 <= i < |es| ==> Sized(es[i])
    ensures es == [] ==> EncodeEntries(es) == [0x90]
    ensures es != [] ==>
              Concat(EncodedEntries(es)) == AppendBytes(es[0]) + Concat(EncodedEntries(es[1..]))
    ensures EncodeEntries(es) == ArrayHeader(|es|) + Concat(EncodedEntries(es))
  {
    if es == [] {
      assert EncodedEntries(es) == [];
    } else {
      EntriesHead(es);
      ConcatHead(AppendBytes(es[0]), EncodedEntries(es[1..]));
    }
  }

  lemma ShortName(name: Byte, payload: Bytes)
    ensures Field([name], payload) == [0xa1, name] + payload
  {
  }

  lemma BatchFormat(b: Batch)
    requires ValidBatch(b)
    ensures var from, es := [0xa1, 0x66] + AppendString(b.fromNode), [0xa1, 0x65] + EncodeEntries(b.entries);
            EncodeBatch(b)
            == if b.handshake.None? then [0x82] + (from + es)
               else [0x83] + (from + es + ([0xa1, 0x68] + EncodeHandshake(b.handshake.value)))
  {
    var from, es := AppendString(b.fromNode), EncodeEntries(b.entries);
    ShortName(0x66, from);
    ShortName(0x65, es);
    if b.handshake.None? {
      TwoFields([0xa1, 0x66] + from, [0xa1, 0x65] + es);
    } else {
      var h := EncodeHandshake(b.handshake.value);
      ShortName(0x68, h);
      ThreeFields([0xa1, 0x66] + from, [0xa1, 0x65] + es, [0xa1, 0x68] + h);
    }
  }

  /** The nine fields of an entry, by name and type. */
  lemma FieldFormats(f: EntryField)
    requires ValidField(f)
    ensures EncodeField(f) == match f
            case FSeq(u) => [0xa1, 0x73] + AppendUint(u)
            case FTs(t) => [0xa1, 0x74] + EncodeTimestamp(t)
            case FBorn(i) => [0xa2, 0x62, 0x61] + AppendInt(i)
            case FOp(o) => [0xa1, 0x6f] + AppendUint(o)
            case FKey(k) => [0xa1, 0x6b] + AppendString(k)
            case FNode(n) => [0xa1, 0x6e] + AppendString(n)
            case FValue(v) => [0xa1, 0x76] + AppendBytes(v)
            case FDelta(bits) => [0xa1, 0x64] + AppendFloat64(bits)
            case FTtl(i) => [0xa3, 0x74, 0x74, 0x6c] + AppendInt(i)
  {
  }

  /** The five fields that every entry has. */
  function FiveFields(e: LogEntry): Bytes
    requires ValidEntry(e)
  {
    ([0xa1, 0x73] + AppendUint(e.seqNo)) + ([0xa1, 0x74] + EncodeTimestamp(e.ts))
    + ([0xa2, 0x62, 0x61] + AppendInt(e.bornAt)) + ([0xa1, 0x6f] + AppendUint(e.op))
    + ([0xa1, 0x6b] + AppendString(e.key))
  }

  // The four that are left out at their zero value.
  function NodeBytes(e: LogEntry): Bytes
    requires ValidEntry(e)
  {
    if |e.nodeID| > 0 then [0xa1, 0x6e] + AppendString(e.nodeID) else []
  }

  function ValueBytes(e: LogEntry): Bytes
    requires ValidEntry(e)
  {
    if e.value.Some? then [0xa1, 0x76] + AppendBytes(e.value.value) else []
  }

  function DeltaBytes(e: LogEntry): Bytes
    requires ValidEntry(e)
  {
    if e.delta != 0 && e.delta != 9_223_372_036_854_775_808 then [0xa1, 0x64] + AppendFloat64(e.delta) else []
  }

  function TtlBytes(e: LogEntry): Bytes
    requires ValidEntry(e)
  {
    if e.ttl != 0 then [0xa3, 0x74, 0x74, 0x6c] + AppendInt(e.ttl) else []
  }

  function One(b: Bytes): nat { if b == [] then 0 else 1 }

  lemma EncodedOneMore(fs: seq<EntryField>, gs: seq<EntryField>)
    requires ValidFields(fs) && ValidFields(gs) && |gs| <= 1
    ensures ValidFields(fs + gs)
    ensures Concat(Encoded(fs + gs)) == Concat(Encoded(fs)) + if gs == [] then [] else EncodeField(gs[0])
  {
    if gs == [] {
      assert fs + gs == fs;
    } else {
      EncodeOneMore(fs, gs[0]);
      assert gs == [gs[0]];
    }
  }

  lemma FiveParts(u: Bytes, v: Bytes, w: Bytes, x: Bytes, y: Bytes)
    ensures Concat([u, v, w, x, y]) == u + v + w + x + y
  {
    ThreeFields(u, v, w);
    ConcatOneMore([u, v, w], x);
    ConcatOneMore([u, v, w, x], y);
    assert [u, v, w] + [x] == [u, v, w, x] && [u, v, w, x] + [y] == [u, v, w, x, y];
  }

  lemma FiveEncoded(a: EntryField, b: EntryField, c: EntryField, d: EntryField, e: EntryField)
    requires ValidField(a) && ValidField(b) && ValidField(c) && ValidField(d) && ValidField(e)
    ensures ValidFields([a, b, c, d, e])
    ensures Encoded([a, b, c, d, e])
            == [EncodeField(a), EncodeField(b), EncodeField(c), EncodeField(d), EncodeField(e)]
  {
  }

  lemma FiveFieldsEncoded(e: LogEntry)
    requires ValidEntry(e)
    ensures ValidFields(Required(e)) && Concat(Encoded(Required(e))) == FiveFields(e)
  {
    FiveEncoded(FSeq(e.seqNo), FTs(e.ts), FBorn(e.bornAt), FOp(e.op), FKey(e.key));
    FiveParts(EncodeField(FSeq(e.seqNo)), EncodeField(FTs(e.ts)), EncodeField(FBorn(e.bornAt)),
              EncodeField(FOp(e.op)), EncodeField(FKey(e.key)));
    FieldFormats(FSeq(e.seqNo));
    FieldFormats(FTs(e.ts));
    FieldFormats(FBorn(e.bornAt));
    FieldFormats(FOp(e.op));
    FieldFormats(FKey(e.key));
  }

  /** The encoding of at most one field. */
  ghost predicate Optionally(fs: seq<EntryField>, b: Bytes) {
    && ValidFields(fs) && |fs| == One(b)
    && b == if fs == [] then [] else EncodeField(fs[0])
  }

  lemma NodeEncoded(e: LogEntry)
    requires ValidEntry(e)
    ensures Optionally(NodeField(e), NodeBytes(e))
  {
    if e.nodeID != [] {
      FieldFormats(FNode(e.nodeID));
    }
  }

  lemma ValueEncoded(e: LogEntry)
    requires ValidEntry(e)
    ensures Optionally(ValueField(e), ValueBytes(e))
  {
    if e.value.Some? {
      FieldFormats(FValue(e.value.value));
    }
  }

  lemma DeltaEncoded(e: LogEntry)
    requires ValidEntry(e)
    ensures Optionally(DeltaField(e), DeltaBytes(e))
  {
    if !IsZeroFloat(e.delta) {
      FieldFormats(FDelta(e.delta));
    }
  }

  lemma TtlEncoded(e: LogEntry)
    requires ValidEntry(e)
    ensures Optionally(TtlField(e), TtlBytes(e))
  {
    if e.ttl != 0 {
      FieldFormats(FTtl(e.ttl));
    }
  }

  lemma JoinOptional(
    r: seq<EntryField>, n: seq<EntryField>, v: seq<EntryField>, d: seq<EntryField>, t: seq<EntryField>,
    nb: Bytes, vb: Bytes, db: Bytes, tb: Bytes)
    requires ValidFields(r) && Optionally(n, nb) && Optionally(v, vb) && Optionally(d, db) && Optionally(t, tb)
    ensures ValidFields(r + n + v + d + t) && |r + n + v + d + t| == |r| + One(nb) + One(vb) + One(db) + One(tb)
    ensures Concat(Encoded(r + n + v + d + t)) == Concat(Encoded(r)) + nb + vb + db + tb
  {
    EncodedOneMore(r, n);
    EncodedOneMore(r + n, v);
    EncodedOneMore(r + n + v, d);
    EncodedOneMore(r + n + v + d, t);
  }

  /** The bytes of an entry: a map of five to nine fields, in this order. */
  lemma EntryFormat(e: LogEntry)
    requires ValidEntry(e)
    ensures EncodeEntry(e)
            == [0x85 + One(NodeBytes(e)) + One(ValueBytes(e)) + One(DeltaBytes(e)) + One(TtlBytes(e))]
               + (FiveFields(e) + NodeBytes(e) + ValueBytes(e) + DeltaBytes(e) + TtlBytes(e))
  {
    FiveFieldsEncoded(e);
    NodeEncoded(e);
    ValueEncoded(e);
    DeltaEncoded(e);
    TtlEncoded(e);
    JoinOptional(Required(e), NodeField(e), ValueField(e), DeltaField(e), TtlField(e),
                 NodeBytes(e), ValueBytes(e), DeltaBytes(e), TtlBytes(e));
  }

  /** A nil handshake is none. */
  lemma NilHandshake(z: Batch, rest: Bytes)
    ensures BatchField([0x68], [0xc0] + rest, z) == Ok(z.(handshake := None), rest)
  {
    assert ([0xc0] + rest)[1..] == rest;
  }

  // ---------------------------------------------------------------- size estimates

  lemma {:induction false} EntriesSizeIs(es: seq<Bytes>, e: Bytes)
    ensures EntriesSize([]) == 0 && EntriesSize(es + [e]) == EntriesSize(es) + 5 + |e|
  {
    assert (es + [e])[..|es|] == es;
  }

  lemma SizesAre(b: Batch, h: Handshake)
    ensures HandshakeSize(h) == 21 + |h.authToken|
    ensures b.handshake.None? ==> BatchSize(b) == 18 + |b.fromNode| + EntriesSize(b.entries)
    ensures b.handshake == Some(h) ==> BatchSize(b) == 38 + |b.fromNode| + EntriesSize(b.entries) + |h.authToken|
  {
  }
}
