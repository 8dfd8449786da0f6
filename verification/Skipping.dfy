/** Unknown fields: every MessagePack object, of any format and however nested, is passed over
    whole, so that a message with more fields than a decoder knows decodes as without them. */
module Skipping {
  import opened Wrappers
  import opened MessagePack
  import opened Clock
  import opened Wire
  import opened Framing
  import opened Formats

  /** An object by its format: a format byte with a body of fixed size, a short string, a string
      or binary or extension with a length, an array, or a map as keys and values in turn. */
  datatype Object =
    | Plain(tag: Byte, body: Bytes)
    | Short(body: Bytes)
    | Long(tag: Byte, length: Bytes, body: Bytes)
    | Items(tag: Byte, length: Bytes, items: seq<Object>)
    | Pairs(tag: Byte, length: Bytes, items: seq<Object>)

  /** The size of the body after a format byte, for the formats of fixed size. */
  predicate PlainFormat(tag: Byte, n: nat) {
    match n
    case 0 => tag <= 0x7f || tag in {0xc0, 0xc2, 0xc3} || tag >= 0xe0
    case 1 => tag in {0xcc, 0xd0}
    case 2 => tag in {0xcd, 0xd1, 0xd4}
    case 3 => tag == 0xd5
    case 4 => tag in {0xca, 0xce, 0xd2}
    case 5 => tag == 0xd6
    case 8 => tag in {0xcb, 0xcf, 0xd3}
    case 9 => tag == 0xd7
    case 17 => tag == 0xd8
    case _ => false
  }

  /** The number of length bytes, and of type bytes before the body. */
  predicate LongFormat(tag: Byte, width: nat, extra: nat) {
    || (extra == 0 && (tag, width) in {(0xc4, 1), (0xc5, 2), (0xc6, 4), (0xd9, 1), (0xda, 2), (0xdb, 4)})
    || (extra == 1 && (tag, width) in {(0xc7, 1), (0xc8, 2), (0xc9, 4)})
  }

  /** A header for n elements: within the format byte, or in two or four bytes. */
  predicate ListFormat(tag: Byte, length: Bytes, n: nat, small: Byte, medium: Byte, large: Byte) {
    || (length == [] && n <= 15 && tag as int == small as int + n)
    || (|length| == 2 && Spelled(length) == n && tag == medium)
    || (|length| == 4 && Spelled(length) == n && tag == large)
  }

  predicate ValidObject(o: Object) {
    match o
    case Plain(tag, body) => PlainFormat(tag, |body|)
    case Short(body) => |body| <= 31
    case Long(tag, length, body) =>
      |length| in {1, 2, 4} && |body| >= Spelled(length) && LongFormat(tag, |length|, |body| - Spelled(length))
    case Items(tag, length, items) =>
      ListFormat(tag, length, |items|, 0x90, 0xdc, 0xdd) && forall i :: 0 <= i < |items| ==> ValidObject(items[i])
    case Pairs(tag, length, items) =>
      && |items| % 2 == 0 && ListFormat(tag, length, |items| / 2, 0x80, 0xde, 0xdf)
      && forall i :: 0 <= i < |items| ==> ValidObject(items[i])
  }

  function Pack(o: Object): Bytes
    requires ValidObject(o)
  {
    match o
    case Plain(tag, body) => [tag] + body
    case Short(body) => [0xa0 + |body|] + body
    case Long(tag, length, body) => [tag] + length + body
    case Items(tag, length, items) => [tag] + length + PackAll(items)
    case Pairs(tag, length, items) => [tag] + length + PackAll(items)
  }

  function PackAll(os: seq<Object>): Bytes
    requires forall i :: 0 <= i < |os| ==> ValidObject(os[i])
  {
    if os == [] then [] else Pack(os[0]) + PackAll(os[1..])
  }

  lemma PlainIsObject(tag: Byte, body: Bytes)
    requires PlainFormat(tag, |body|)
    ensures IsObject([tag] + body)
  {
    FlatObject([tag] + body);
  }

  lemma ShortIsObject(body: Bytes)
    requires |body| <= 31
    ensures IsObject([0xa0 + |body|] + body)
  {
    FlatObject([0xa0 + |body|] + body);
  }

  lemma LongSize(tag: Byte, length: Bytes, body: Bytes, rest: Bytes)
    requires |length| in {1, 2, 4} && |body| >= Spelled(length)
    requires LongFormat(tag, |length|, |body| - Spelled(length))
    ensures var b := [tag] + length + body + rest;
            ObjectSize(b).Ok? && ObjectSize(b).value == (1 + |length| + |body|, 0)
  {
    ReadSpelled(tag, length, body + rest);
    assert [tag] + length + body + rest == [tag] + length + (body + rest);
  }

  lemma LongIsObject(tag: Byte, length: Bytes, body: Bytes)
    requires |length| in {1, 2, 4} && |body| >= Spelled(length)
    requires LongFormat(tag, |length|, |body| - Spelled(length))
    ensures IsObject([tag] + length + body)
  {
    forall rest: Bytes
      ensures ObjectSize([tag] + length + body + rest).Ok?
      ensures ObjectSize([tag] + length + body + rest).value == (|[tag] + length + body|, 0)
    {
      LongSize(tag, length, body, rest);
    }
    FlatObject([tag] + length + body);
  }

  lemma ItemsSize(tag: Byte, length: Bytes, n: nat, rest: Bytes)
    requires ListFormat(tag, length, n, 0x90, 0xdc, 0xdd)
    ensures var b := [tag] + length + rest;
            ObjectSize(b).Ok? && ObjectSize(b).value == (1 + |length|, n)
  {
    if length != [] {
      ReadSpelled(tag, length, rest);
    }
  }

  lemma PairsSize(tag: Byte, length: Bytes, n: nat, rest: Bytes)
    requires ListFormat(tag, length, n, 0x80, 0xde, 0xdf)
    ensures var b := [tag] + length + rest;
            ObjectSize(b).Ok? && ObjectSize(b).value == (1 + |length|, 2 * n)
  {
    if length != [] {
      ReadSpelled(tag, length, rest);
    }
  }

  lemma HeaderSkips(h: Bytes, n: nat, rest: Bytes, pending: nat)
    requires h != [] && pending >= 1
    requires ObjectSize(h + rest).Ok? && ObjectSize(h + rest).value == (|h|, n)
    ensures Skip(h + rest, pending) == Skip(rest, pending - 1 + n)
  {
    assert (h + rest)[|h|..] == rest;
  }

  lemma HeaderPasses(h: Bytes, n: nat)
    requires h != []
    requires forall rest: Bytes :: ObjectSize(h + rest).Ok? && ObjectSize(h + rest).value == (|h|, n)
    ensures Passes(h, 1, n)
  {
    forall rest: Bytes, pending: nat | pending >= 1 ensures Skip(h + rest, pending) == Skip(rest, pending - 1 + n) {
      HeaderSkips(h, n, rest, pending);
    }
  }

  lemma ListIsObject(h: Bytes, body: Bytes, n: nat)
    requires Passes(h, 1, n) && Passes(body, n, 0)
    ensures IsObject(h + body)
  {
    PassesBoth(h, body, 1, n, n, 0);
  }

  lemma OneMorePasses(x: Bytes, y: Bytes, all: Bytes, n: nat)
    requires IsObject(x) && Passes(y, n, 0) && all == x + y
    ensures Passes(all, n + 1, 0)
  {
    PassesAfter(x, y, 1, n);
  }

  /** Skipping passes over every object whole, whatever follows it. */
  lemma {:induction false} PackIsObject(o: Object)
    requires ValidObject(o)
    ensures IsObject(Pack(o))
    decreases o, 1
  {
    match o
    case Plain(tag, body) => PlainIsObject(tag, body);
    case Short(body) => ShortIsObject(body);
    case Long(tag, length, body) => LongIsObject(tag, length, body);
    case Items(tag, length, items) =>
      forall rest: Bytes ensures ObjectSize([tag] + length + rest).Ok?
        ensures ObjectSize([tag] + length + rest).value == (|[tag] + length|, |items|)
      {
        ItemsSize(tag, length, |items|, rest);
      }
      HeaderPasses([tag] + length, |items|);
      PackAllPasses(items, o);
      ListIsObject([tag] + length, PackAll(items), |items|);
    case Pairs(tag, length, items) =>
      forall rest: Bytes ensures ObjectSize([tag] + length + rest).Ok?
        ensures ObjectSize([tag] + length + rest).value == (|[tag] + length|, |items|)
      {
        PairsSize(tag, length, |items| / 2, rest);
      }
      HeaderPasses([tag] + length, |items|);
      PackAllPasses(items, o);
      ListIsObject([tag] + length, PackAll(items), |items|);
  }

  lemma {:induction false} PackAllPasses(os: seq<Object>, o: Object)
    requires forall i :: 0 <= i < |os| ==> ValidObject(os[i]) && os[i] < o
    ensures Passes(PackAll(os), |os|, 0)
    decreases o, 0, |os|
  {
    if os == [] {
      NothingPasses();
    } else {
      PackIsObject(os[0]);
      PackAllPasses(os[1..], o);
      OneMorePasses(Pack(os[0]), PackAll(os[1..]), PackAll(os), |os| - 1);
    }
  }

  lemma SkipsObject<Z>(o: Object, rest: Bytes, z: Z)
    requires ValidObject(o)
    ensures SkipField(Pack(o) + rest, z) == Ok(z, rest)
  {
    PackIsObject(o);
    assert Skip(Pack(o) + rest, 1) == Skip(rest, 1 - 1 + 0);
  }

  /** A field of a name that the message does not have changes nothing, wherever it stands. */
  lemma UnknownEntryField(n: nat, name: Bytes, o: Object, rest: Bytes, z: LogEntry)
    requires ValidObject(o) && |name| < 32
    requires name !in {[0x73], [0x74], [0x62, 0x61], [0x6f], [0x6b], [0x6e], [0x76], [0x64], [0x74, 0x74, 0x6c]}
    ensures DecodeFields(n + 1, Field(name, Pack(o)) + rest, z, EntryFieldDecoder)
            == DecodeFields(n, rest, z, EntryFieldDecoder)
  {
    SkipsObject(o, rest, z);
    DecodeOneField(n, name, Pack(o), rest, z, z, EntryFieldDecoder);
  }

  lemma UnknownTimestampField(n: nat, name: Bytes, o: Object, rest: Bytes, z: Timestamp)
    requires ValidObject(o) && |name| < 32 && name !in {[0x70], [0x6c]}
    ensures DecodeFields(n + 1, Field(name, Pack(o)) + rest, z, TimestampField)
            == DecodeFields(n, rest, z, TimestampField)
  {
    SkipsObject(o, rest, z);
    DecodeOneField(n, name, Pack(o), rest, z, z, TimestampField);
  }

  lemma UnknownHandshakeField(n: nat, name: Bytes, o: Object, rest: Bytes, z: Handshake)
    requires ValidObject(o) && |name| < 32 && name !in {[0x6c, 0x73], [0x61, 0x74]}
    ensures DecodeFields(n + 1, Field(name, Pack(o)) + rest, z, HandshakeField)
            == DecodeFields(n, rest, z, HandshakeField)
  {
    SkipsObject(o, rest, z);
    DecodeOneField(n, name, Pack(o), rest, z, z, HandshakeField);
  }

  lemma UnknownBatchField(n: nat, name: Bytes, o: Object, rest: Bytes, z: Batch)
    requires ValidObject(o) && |name| < 32 && name !in {[0x66], [0x65], [0x68]}
    ensures DecodeFields(n + 1, Field(name, Pack(o)) + rest, z, BatchField)
            == DecodeFields(n, rest, z, BatchField)
  {
    SkipsObject(o, rest, z);
    DecodeOneField(n, name, Pack(o), rest, z, z, BatchField);
  }
}
