/** The MessagePack primitives that the generated codecs are built from: the int, float,
    str, bin, array and map families of the "Formats" section of the MessagePack
    specification. Strings are byte sequences; floats are their 64-bit patterns. */
module MessagePack {

  type Byte = x: int | 0 <= x < 256
  type Bytes = seq<Byte>

  /** A decoder's answer: a value and the bytes after it, or an error. */
  datatype Result<+T> = Ok(value: T, rest: Bytes) | Err

  // ---------------------------------------------------------------- big-endian numbers

  function Pow256(n: nat): nat {
    if n == 0 then 1 else 256 * Pow256(n - 1)
  }

  function BigEndian(x: nat, n: nat): (r: Bytes)
    ensures |r| == n
  {
    if n == 0 then [] else BigEndian(x / 256, n - 1) + [x % 256]
  }

  function Number(b: Bytes): nat {
    if b == [] then 0 else 256 * Number(b[..|b| - 1]) + b[|b| - 1]
  }

  lemma {:induction false} NumberOfBigEndian(x: nat, n: nat)
    requires x < Pow256(n)
    ensures Number(BigEndian(x, n)) == x
  {
    if n > 0 {
      NumberOfBigEndian(x / 256, n - 1);
      assert BigEndian(x, n)[..n - 1] == BigEndian(x / 256, n - 1);
    }
  }

  const TWO8 := 0x100
  const TWO16 := 0x1_0000
  const TWO32 := 0x1_0000_0000
  const TWO63 := 0x8000_0000_0000_0000
  const TWO64 := 0x1_0000_0000_0000_0000

  lemma Powers()
    ensures Pow256(1) == TWO8 && Pow256(2) == TWO16 && Pow256(4) == TWO32 && Pow256(8) == TWO64
  {
  }

  /** A format byte followed by an n-byte number. */
  function Tagged(tag: Byte, x: nat, n: nat): Bytes { [tag] + BigEndian(x, n) }

  /** The n-byte number after the format byte. */
  function ReadNumber(b: Bytes, n: nat): Result<nat> {
    if |b| < 1 + n then Err else Ok(Number(b[1..1 + n]), b[1 + n..])
  }

  lemma ReadTagged(tag: Byte, x: nat, n: nat, rest: Bytes)
    requires x < Pow256(n)
    ensures ReadNumber(Tagged(tag, x, n) + rest, n) == Ok(x, rest)
  {
    NumberOfBigEndian(x, n);
    var b := Tagged(tag, x, n) + rest;
    assert b[1..1 + n] == BigEndian(x, n);
    assert b[1 + n..] == rest;
  }

  // ---------------------------------------------------------------- integers

  predicate IsInt64(i: int) { -TWO63 <= i < TWO63 }
  predicate IsUint64(u: int) { 0 <= u < TWO64 }

  function AppendUint(u: int): Bytes
    requires IsUint64(u)
  {
    if u < 128 then [u]
    else if u < TWO8 then Tagged(0xcc, u, 1)
    else if u < TWO16 then Tagged(0xcd, u, 2)
    else if u < TWO32 then Tagged(0xce, u, 4)
    else Tagged(0xcf, u, 8)
  }

  function AppendInt(i: int): Bytes
    requires IsInt64(i)
  {
    if i >= 0 then
      if i < 128 then [i]
      else if i < TWO16 / 2 then Tagged(0xd1, i, 2)
      else if i < TWO32 / 2 then Tagged(0xd2, i, 4)
      else Tagged(0xd3, i, 8)
    else if i >= -32 then [i + 256]
    else if i >= -128 then Tagged(0xd0, i + TWO8, 1)
    else if i >= -(TWO16 / 2) then Tagged(0xd1, i + TWO16, 2)
    else if i >= -(TWO32 / 2) then Tagged(0xd2, i + TWO32, 4)
    else Tagged(0xd3, i + TWO64, 8)
  }

  /** Two's complement in n bytes. */
  function Signed(r: Result<nat>, modulus: nat): Result<int> {
    if r.Err? then Err
    else if r.value < modulus / 2 then Ok(r.value, r.rest)
    else Ok(r.value - modulus, r.rest)
  }

  /** Any MessagePack integer. */
  function ReadInteger(b: Bytes): Result<int> {
    if b == [] then Err
    else
      var tag: int := b[0];
      if tag < 0x80 then Ok(tag, b[1..])
      else if tag >= 0xe0 then Ok(tag - 256, b[1..])
      else if tag == 0xcc then ReadNumber(b, 1)
      else if tag == 0xcd then ReadNumber(b, 2)
      else if tag == 0xce then ReadNumber(b, 4)
      else if tag == 0xcf then ReadNumber(b, 8)
      else if tag == 0xd0 then Signed(ReadNumber(b, 1), TWO8)
      else if tag == 0xd1 then Signed(ReadNumber(b, 2), TWO16)
      else if tag == 0xd2 then Signed(ReadNumber(b, 4), TWO32)
      else if tag == 0xd3 then Signed(ReadNumber(b, 8), TWO64)
      else Err
  }

  function InRange(r: Result<int>, low: int, high: int): Result<int> {
    if r.Ok? && low <= r.value < high then r else Err
  }

  function ReadInt64(b: Bytes): Result<int> { InRange(ReadInteger(b), -TWO63, TWO63) }
  function ReadInt32(b: Bytes): Result<int> { InRange(ReadInteger(b), -(TWO32 / 2), TWO32 / 2) }
  function ReadUint64(b: Bytes): Result<int> { InRange(ReadInteger(b), 0, TWO64) }
  function ReadByte(b: Bytes): Result<int> { InRange(ReadInteger(b), 0, 256) }

  lemma ReadAppendUint(u: int, rest: Bytes)
    requires IsUint64(u)
    ensures ReadInteger(AppendUint(u) + rest) == Ok(u, rest)
    ensures 1 <= |AppendUint(u)| <= 9 && (u < 256 ==> |AppendUint(u)| <= 2)
  {
    Powers();
    if u < 128 {
      assert ([u] + rest)[1..] == rest;
    } else if u < TWO8 {
      ReadTagged(0xcc, u, 1, rest);
    } else if u < TWO16 {
      ReadTagged(0xcd, u, 2, rest);
    } else if u < TWO32 {
      ReadTagged(0xce, u, 4, rest);
    } else {
      ReadTagged(0xcf, u, 8, rest);
    }
  }

  /** Two's complement in n bytes. */
  lemma ReadTwosComplement(tag: Byte, i: int, n: nat, modulus: int, rest: Bytes)
    requires modulus == Pow256(n) && modulus % 2 == 0 && 0 <= 2 * i + modulus < 2 * modulus
    ensures Signed(ReadNumber(Tagged(tag, if i >= 0 then i else i + modulus, n) + rest, n), modulus) == Ok(i, rest)
  {
    ReadTagged(tag, if i >= 0 then i else i + modulus, n, rest);
  }

  lemma ReadAppendNatural(i: int, rest: Bytes)
    requires 0 <= i < TWO63
    ensures ReadInteger(AppendInt(i) + rest) == Ok(i, rest)
  {
    Powers();
    if i < 128 {
      assert ([i] + rest)[1..] == rest;
    } else if i < TWO16 / 2 {
      ReadTwosComplement(0xd1, i, 2, TWO16, rest);
    } else if i < TWO32 / 2 {
      ReadTwosComplement(0xd2, i, 4, TWO32, rest);
    } else {
      ReadTwosComplement(0xd3, i, 8, TWO64, rest);
    }
  }

  lemma ReadAppendNegative(i: int, rest: Bytes)
    requires -TWO63 <= i < 0
    ensures ReadInteger(AppendInt(i) + rest) == Ok(i, rest)
  {
    Powers();
    if i >= -32 {
      assert ([i + 256] + rest)[1..] == rest;
    } else if i >= -128 {
      ReadTwosComplement(0xd0, i, 1, TWO8, rest);
    } else if i >= -(TWO16 / 2) {
      ReadTwosComplement(0xd1, i, 2, TWO16, rest);
    } else if i >= -(TWO32 / 2) {
      ReadTwosComplement(0xd2, i, 4, TWO32, rest);
    } else {
      ReadTwosComplement(0xd3, i, 8, TWO64, rest);
    }
  }

  lemma ReadAppendInt(i: int, rest: Bytes)
    requires IsInt64(i)
    ensures ReadInteger(AppendInt(i) + rest) == Ok(i, rest)
    ensures 1 <= |AppendInt(i)| <= 9 && (-(TWO32 / 2) <= i < TWO32 / 2 ==> |AppendInt(i)| <= 5)
  {
    if i >= 0 {
      ReadAppendNatural(i, rest);
    } else {
      ReadAppendNegative(i, rest);
    }
  }

  // ---------------------------------------------------------------- floats

  function AppendFloat64(bits: int): Bytes
    requires IsUint64(bits)
  {
    Tagged(0xcb, bits, 8)
  }

  const TWO22 := 0x40_0000
  const TWO23 := 0x80_0000
  const TWO29 := 0x2000_0000
  const TWO52 := 0x10_0000_0000_0000

  /** A subnormal fraction moved up to its leading bit, at most n places, and the exponent
      moved down as far. */
  function Normalized(fraction: nat, exponent: int, n: nat): (int, nat)
    decreases n
  {
    if n == 0 || fraction >= TWO23 then (exponent, fraction) else Normalized(2 * fraction, exponent - 1, n - 1)
  }

  /** The bit pattern of a float64 with the value of a float32; a NaN becomes a quiet one. */
  function Widened(bits: nat): int {
    var sign, exponent, fraction := bits / (TWO32 / 2), bits / TWO23 % 256, bits % TWO23;
    sign * TWO63 +
    if exponent == 255 then
      2047 * TWO52 + TWO29 * if fraction == 0 then 0 else if fraction < TWO22 then fraction + TWO22 else fraction
    else if exponent > 0 then (exponent + 896) * TWO52 + TWO29 * fraction
    else if fraction == 0 then 0
    else
      var r := Normalized(fraction, 1, 23);
      (r.0 + 896) * TWO52 + TWO29 * (r.1 - TWO23)
  }

  function ReadFloat32(b: Bytes): Result<int> {
    var r := ReadNumber(b, 4);
    if r.Err? then Err else Ok(Widened(r.value), r.rest)
  }

  /** A float64, or a float32 that is widened. */
  function ReadFloat64(b: Bytes): Result<int> {
    if b == [] then Err
    else if b[0] == 0xcb then ReadNumber(b, 8)
    else if b[0] == 0xca then ReadFloat32(b)
    else Err
  }

  lemma ReadAppendFloat64(bits: int, rest: Bytes)
    requires IsUint64(bits)
    ensures ReadFloat64(AppendFloat64(bits) + rest) == Ok(bits, rest)
  {
    Powers();
    ReadTagged(0xcb, bits, 8, rest);
  }

  // ---------------------------------------------------------------- strings and binary

  predicate Sized(s: Bytes) { |s| < TWO32 }

  function StringHeader(n: nat): Bytes
    requires n < TWO32
  {
    if n < 32 then [0xa0 + n]
    else if n < TWO8 then Tagged(0xd9, n, 1)
    else if n < TWO16 then Tagged(0xda, n, 2)
    else Tagged(0xdb, n, 4)
  }

  function BinHeader(n: nat): Bytes
    requires n < TWO32
  {
    if n < TWO8 then Tagged(0xc4, n, 1)
    else if n < TWO16 then Tagged(0xc5, n, 2)
    else Tagged(0xc6, n, 4)
  }

  function AppendString(s: Bytes): Bytes
    requires Sized(s)
  {
    StringHeader(|s|) + s
  }

  function AppendBytes(s: Bytes): Bytes
    requires Sized(s)
  {
    BinHeader(|s|) + s
  }

  function ReadStringHeader(b: Bytes): Result<nat> {
    if b == [] then Err
    else if 0xa0 <= b[0] < 0xc0 then Ok(b[0] - 0xa0, b[1..])
    else if b[0] == 0xd9 then ReadNumber(b, 1)
    else if b[0] == 0xda then ReadNumber(b, 2)
    else if b[0] == 0xdb then ReadNumber(b, 4)
    else Err
  }

  function ReadBinHeader(b: Bytes): Result<nat> {
    if b == [] then Err
    else if b[0] == 0xc4 then ReadNumber(b, 1)
    else if b[0] == 0xc5 then ReadNumber(b, 2)
    else if b[0] == 0xc6 then ReadNumber(b, 4)
    else Err
  }

  function Body(r: Result<nat>): Result<Bytes> {
    if r.Err? || |r.rest| < r.value then Err
    else Ok(r.rest[..r.value], r.rest[r.value..])
  }

  function ReadString(b: Bytes): Result<Bytes> { Body(ReadStringHeader(b)) }
  function ReadBin(b: Bytes): Result<Bytes> { Body(ReadBinHeader(b)) }

  lemma ReadAppendStringHeader(n: nat, rest: Bytes)
    requires n < TWO32
    ensures ReadStringHeader(StringHeader(n) + rest) == Ok(n, rest)
    ensures 1 <= |StringHeader(n)| <= 5
  {
    Powers();
    if n < 32 {
      assert ([0xa0 + n] + rest)[1..] == rest;
    } else if n < TWO8 {
      ReadTagged(0xd9, n, 1, rest);
    } else if n < TWO16 {
      ReadTagged(0xda, n, 2, rest);
    } else {
      ReadTagged(0xdb, n, 4, rest);
    }
  }

  lemma ReadAppendBinHeader(n: nat, rest: Bytes)
    requires n < TWO32
    ensures ReadBinHeader(BinHeader(n) + rest) == Ok(n, rest)
    ensures 2 <= |BinHeader(n)| <= 5
  {
    Powers();
    if n < TWO8 {
      ReadTagged(0xc4, n, 1, rest);
    } else if n < TWO16 {
      ReadTagged(0xc5, n, 2, rest);
    } else {
      ReadTagged(0xc6, n, 4, rest);
    }
  }

  lemma ReadAppendString(s: Bytes, rest: Bytes)
    requires Sized(s)
    ensures ReadString(AppendString(s) + rest) == Ok(s, rest)
    ensures |AppendString(s)| <= 5 + |s|
  {
    ReadAppendStringHeader(|s|, s + rest);
    assert AppendString(s) + rest == StringHeader(|s|) + (s + rest);
  }

  lemma ReadAppendBytes(s: Bytes, rest: Bytes)
    requires Sized(s)
    ensures ReadBin(AppendBytes(s) + rest) == Ok(s, rest)
    ensures |AppendBytes(s)| <= 5 + |s|
  {
    ReadAppendBinHeader(|s|, s + rest);
    assert AppendBytes(s) + rest == BinHeader(|s|) + (s + rest);
  }

  // ---------------------------------------------------------------- arrays and maps

  function ArrayHeader(n: nat): Bytes
    requires n < TWO32
  {
    if n < 16 then [0x90 + n]
    else if n < TWO16 then Tagged(0xdc, n, 2)
    else Tagged(0xdd, n, 4)
  }

  function ReadArrayHeader(b: Bytes): Result<nat> {
    if b == [] then Err
    else if 0x90 <= b[0] < 0xa0 then Ok(b[0] - 0x90, b[1..])
    else if b[0] == 0xdc then ReadNumber(b, 2)
    else if b[0] == 0xdd then ReadNumber(b, 4)
    else Err
  }

  lemma ReadAppendArrayHeader(n: nat, rest: Bytes)
    requires n < TWO32
    ensures ReadArrayHeader(ArrayHeader(n) + rest) == Ok(n, rest)
    ensures 1 <= |ArrayHeader(n)| <= 5
  {
    Powers();
    if n < 16 {
      assert ([0x90 + n] + rest)[1..] == rest;
    } else if n < TWO16 {
      ReadTagged(0xdc, n, 2, rest);
    } else {
      ReadTagged(0xdd, n, 4, rest);
    }
  }

  function ReadMapHeader(b: Bytes): Result<nat> {
    if b == [] then Err
    else if 0x80 <= b[0] < 0x90 then Ok(b[0] - 0x80, b[1..])
    else if b[0] == 0xde then ReadNumber(b, 2)
    else if b[0] == 0xdf then ReadNumber(b, 4)
    else Err
  }

  /** A map key is a string; a binary key is accepted as well. */
  function ReadMapKey(b: Bytes): Result<Bytes> {
    if b != [] && 0xc4 <= b[0] <= 0xc6 then ReadBin(b) else ReadString(b)
  }

  /** A field of a message: a name of fewer than 32 bytes, and the value. */
  function Field(name: Bytes, payload: Bytes): Bytes
    requires |name| < 32
  {
    [0xa0 + |name|] + name + payload
  }

  lemma ReadFieldName(name: Bytes, payload: Bytes, rest: Bytes)
    requires |name| < 32
    ensures ReadMapKey(Field(name, payload) + rest) == Ok(name, payload + rest)
  {
    var b := Field(name, payload) + rest;
    assert b[1..] == name + (payload + rest);
  }

  // ---------------------------------------------------------------- skipping

  /** The size of the object that b starts with, without nested objects, and the number of
      objects nested in it. */
  function ObjectSize(b: Bytes): Result<(nat, nat)>
    requires b != []
  {
    var tag := b[0];
    if tag < 0x80 || tag >= 0xe0 || tag == 0xc0 || tag == 0xc2 || tag == 0xc3 then Ok((1, 0), b)
    else if tag < 0x90 then Ok((1, 2 * (tag - 0x80)), b)
    else if tag < 0xa0 then Ok((1, tag - 0x90), b)
    else if tag < 0xc0 then Ok((1 + tag - 0xa0, 0), b)
    else if tag == 0xcc || tag == 0xd0 then Ok((2, 0), b)
    else if tag == 0xcd || tag == 0xd1 then Ok((3, 0), b)
    else if tag == 0xca || tag == 0xce || tag == 0xd2 then Ok((5, 0), b)
    else if tag == 0xcb || tag == 0xcf || tag == 0xd3 then Ok((9, 0), b)
    else if tag == 0xc4 || tag == 0xd9 then Measured(b, 1, 0)
    else if tag == 0xc5 || tag == 0xda then Measured(b, 2, 0)
    else if tag == 0xc6 || tag == 0xdb then Measured(b, 4, 0)
    else if tag == 0xc7 then Measured(b, 1, 1)
    else if tag == 0xc8 then Measured(b, 2, 1)
    else if tag == 0xc9 then Measured(b, 4, 1)
    else if tag == 0xd4 then Ok((3, 0), b)
    else if tag == 0xd5 then Ok((4, 0), b)
    else if tag == 0xd6 then Ok((6, 0), b)
    else if tag == 0xd7 then Ok((10, 0), b)
    else if tag == 0xd8 then Ok((18, 0), b)
    else if tag == 0xdc then Nested(b, 2, 1)
    else if tag == 0xdd then Nested(b, 4, 1)
    else if tag == 0xde then Nested(b, 2, 2)
    else if tag == 0xdf then Nested(b, 4, 2)
    else Err
  }

  /** A payload whose length is an n-byte number, with `extra` type bytes. */
  function Measured(b: Bytes, n: nat, extra: nat): Result<(nat, nat)> {
    var r := ReadNumber(b, n);
    if r.Err? then Err else Ok((1 + n + extra + r.value, 0), b)
  }

  /** An n-byte number of elements, each of `each` objects. */
  function Nested(b: Bytes, n: nat, each: nat): Result<(nat, nat)> {
    var r := ReadNumber(b, n);
    if r.Err? then Err else Ok((1 + n, each * r.value), b)
  }

  /** Skips `count` objects, nested objects included. */
  function Skip(b: Bytes, count: nat): Result<()>
    decreases |b|
  {
    if count == 0 then Ok((), b)
    else if b == [] then Err
    else
      var size := ObjectSize(b);
      if size.Err? || |b| < size.value.0 || size.value.0 == 0 then Err
      else Skip(b[size.value.0..], count - 1 + size.value.1)
  }

  /** Skipping past x completes `done` objects of those pending and adds `more`,
      whatever follows x. */
  ghost predicate Passes(x: Bytes, done: nat, more: nat) {
    forall rest: Bytes, pending: nat ::
      pending >= done ==> Skip(x + rest, pending) == Skip(rest, pending - done + more)
  }

  /** The encoding x is one whole object. */
  ghost predicate IsObject(x: Bytes) { Passes(x, 1, 0) }

  lemma PassesBoth(x: Bytes, y: Bytes, d: nat, n: nat, e: nat, m: nat)
    requires Passes(x, d, n) && Passes(y, e, m) && e <= n
    ensures Passes(x + y, d, n - e + m)
  {
    forall rest: Bytes, pending: nat | pending >= d
      ensures Skip(x + y + rest, pending) == Skip(rest, pending - d + (n - e + m))
    {
      assert x + y + rest == x + (y + rest);
    }
  }

  lemma FlatObject(x: Bytes)
    requires x != []
    requires forall rest: Bytes :: ObjectSize(x + rest).Ok? && ObjectSize(x + rest).value == (|x|, 0)
    ensures IsObject(x)
  {
  }

  lemma IntegersAreObjects(i: int)
    ensures IsInt64(i) ==> IsObject(AppendInt(i))
    ensures IsUint64(i) ==> IsObject(AppendUint(i)) && IsObject(AppendFloat64(i))
  {
    if IsInt64(i) {
      FlatObject(AppendInt(i));
    }
    if IsUint64(i) {
      FlatObject(AppendUint(i));
      FlatObject(AppendFloat64(i));
    }
  }

  lemma StringSize(s: Bytes, rest: Bytes)
    requires Sized(s)
    ensures ObjectSize(StringHeader(|s|) + (s + rest)).Ok?
    ensures ObjectSize(StringHeader(|s|) + (s + rest)).value == (|StringHeader(|s|)| + |s|, 0)
  {
    ReadAppendStringHeader(|s|, s + rest);
  }

  lemma HeaderAndBody(h: Bytes, s: Bytes)
    requires h != []
    requires forall rest: Bytes ::
               ObjectSize(h + (s + rest)).Ok? && ObjectSize(h + (s + rest)).value == (|h| + |s|, 0)
    ensures IsObject(h + s)
  {
    forall rest: Bytes
      ensures ObjectSize(h + s + rest).Ok? && ObjectSize(h + s + rest).value == (|h + s|, 0)
    {
      assert h + s + rest == h + (s + rest);
    }
    FlatObject(h + s);
  }

  lemma StringIsObject(s: Bytes)
    requires Sized(s)
    ensures IsObject(AppendString(s))
  {
    forall rest: Bytes
      ensures ObjectSize(StringHeader(|s|) + (s + rest)).Ok?
      ensures ObjectSize(StringHeader(|s|) + (s + rest)).value == (|StringHeader(|s|)| + |s|, 0)
    {
      StringSize(s, rest);
    }
    HeaderAndBody(StringHeader(|s|), s);
  }

  lemma BytesSize(s: Bytes, rest: Bytes)
    requires Sized(s)
    ensures ObjectSize(BinHeader(|s|) + (s + rest)).Ok?
    ensures ObjectSize(BinHeader(|s|) + (s + rest)).value == (|BinHeader(|s|)| + |s|, 0)
  {
    ReadAppendBinHeader(|s|, s + rest);
  }

  lemma BytesIsObject(s: Bytes)
    requires Sized(s)
    ensures IsObject(AppendBytes(s))
  {
    forall rest: Bytes
      ensures ObjectSize(BinHeader(|s|) + (s + rest)).Ok?
      ensures ObjectSize(BinHeader(|s|) + (s + rest)).value == (|BinHeader(|s|)| + |s|, 0)
    {
      BytesSize(s, rest);
    }
    HeaderAndBody(BinHeader(|s|), s);
  }

  // ---------------------------------------------------------------- map decoding

  /** How a message type decodes the value of one field into itself. */
  type FieldDecoder<!Z> = (Bytes, Bytes, Z) -> Result<Z>

  /** The decoding loop: n fields, in whatever order they come, decoded into z. */
  function DecodeFields<Z>(n: nat, b: Bytes, z: Z, field: FieldDecoder<Z>): Result<Z> {
    if n == 0 then Ok(z, b)
    else
      var k := ReadMapKey(b);
      if k.Err? then Err
      else
        var r := field(k.value, k.rest, z);
        if r.Err? then Err else DecodeFields(n - 1, r.rest, r.value, field)
  }

  function DecodeMap<Z>(b: Bytes, z: Z, field: FieldDecoder<Z>): Result<Z> {
    var h := ReadMapHeader(b);
    if h.Err? then Err else DecodeFields(h.value, h.rest, z, field)
  }

  /** A field of an unknown name is skipped, whatever object it holds. */
  function SkipField<Z>(b: Bytes, z: Z): Result<Z> {
    var r := Skip(b, 1);
    if r.Err? then Err else Ok(z, r.rest)
  }

  lemma DecodeOneField<Z>(n: nat, name: Bytes, payload: Bytes, rest: Bytes, z: Z, z': Z, field: FieldDecoder<Z>)
    requires |name| < 32 && field(name, payload + rest, z) == Ok(z', rest)
    ensures DecodeFields(n + 1, Field(name, payload) + rest, z, field) == DecodeFields(n, rest, z', field)
  {
    ReadFieldName(name, payload, rest);
  }

  /** A map of fewer than 16 fields has a one-byte header. */
  lemma DecodeSmallMap<Z>(n: nat, body: Bytes, z: Z, field: FieldDecoder<Z>)
    requires n < 16
    ensures DecodeMap([0x80 + n] + body, z, field) == DecodeFields(n, body, z, field)
  {
  }

  lemma SmallMapHeader(n: nat)
    requires n < 16
    ensures Passes([0x80 + n], 1, 2 * n)
  {
  }

  // ---------------------------------------------------------------- lists of encodings

  function Concat(xs: seq<Bytes>): Bytes {
    if xs == [] then [] else xs[0] + Concat(xs[1..])
  }

  lemma {:induction false} ConcatAppended(xs: seq<Bytes>, ys: seq<Bytes>)
    ensures Concat(xs + ys) == Concat(xs) + Concat(ys)
  {
    if xs == [] {
      assert xs + ys == ys;
    } else {
      assert (xs + ys)[1..] == xs[1..] + ys;
      ConcatAppended(xs[1..], ys);
    }
  }

  lemma ConcatOneMore(xs: seq<Bytes>, x: Bytes)
    ensures Concat(xs + [x]) == Concat(xs) + x
  {
    ConcatAppended(xs, [x]);
    assert Concat([x]) == x + Concat([]);
  }

  /** A list of fields, each a name and a value, is twice as many objects. */
  lemma {:induction false} ConcatPasses(xs: seq<Bytes>)
    requires forall i :: 0 <= i < |xs| ==> Passes(xs[i], 2, 0)
    ensures Passes(Concat(xs), 2 * |xs|, 0)
  {
    if xs == [] {
      NothingPasses();
    } else {
      ConcatPasses(xs[1..]);
      PassesAfter(xs[0], Concat(xs[1..]), 2, 2 * |xs[1..]|);
    }
  }

  lemma NothingPasses()
    ensures Passes([], 0, 0)
  {
    forall rest: Bytes, pending: nat ensures Skip([] + rest, pending) == Skip(rest, pending) {
      assert [] + rest == rest;
    }
  }

  lemma PassesAfter(x: Bytes, y: Bytes, d: nat, e: nat)
    requires Passes(x, d, 0) && Passes(y, e, 0)
    ensures Passes(x + y, d + e, 0)
  {
    forall rest: Bytes, pending: nat | pending >= d + e
      ensures Skip(x + y + rest, pending) == Skip(rest, pending - (d + e))
    {
      assert x + y + rest == x + (y + rest);
    }
  }

  // ---------------------------------------------------------------- round trips of lists

  function Fold<Z, F>(z: Z, fs: seq<F>, assign: (Z, F) -> Z): Z
    decreases |fs|
  {
    if fs == [] then z else Fold(assign(z, fs[0]), fs[1..], assign)
  }

  lemma {:induction false} FoldAppended<Z, F>(z: Z, fs: seq<F>, gs: seq<F>, assign: (Z, F) -> Z)
    ensures Fold(z, fs + gs, assign) == Fold(Fold(z, fs, assign), gs, assign)
    decreases |fs|
  {
    if fs == [] {
      assert fs + gs == gs;
    } else {
      assert (fs + gs)[1..] == fs[1..] + gs;
      FoldAppended(assign(z, fs[0]), fs[1..], gs, assign);
    }
  }

  /** The decoding loop reads back any list of fields, in any order, when it reads back
      each of them. */
  lemma {:induction false} DecodeEncoded<Z, F>(
    fs: seq<F>, names: seq<Bytes>, payloads: seq<Bytes>, xs: seq<Bytes>, rest: Bytes, z: Z,
    field: FieldDecoder<Z>, assign: (Z, F) -> Z)
    requires |fs| == |names| == |payloads| == |xs|
    requires forall i :: 0 <= i < |fs| ==> |names[i]| < 32 && xs[i] == Field(names[i], payloads[i])
    requires forall i, r: Bytes, y: Z :: 0 <= i < |fs| ==>
               field(names[i], payloads[i] + r, y) == Ok(assign(y, fs[i]), r)
    ensures DecodeFields(|fs|, Concat(xs) + rest, z, field) == Ok(Fold(z, fs, assign), rest)
    decreases |fs|
  {
    if fs == [] {
      assert Concat(xs) + rest == rest;
    } else {
      var tail := Concat(xs[1..]) + rest;
      DecodeOneField(|fs| - 1, names[0], payloads[0], tail, z, assign(z, fs[0]), field);
      assert Concat(xs) + rest == xs[0] + tail;
      DecodeEncoded(fs[1..], names[1..], payloads[1..], xs[1..], rest, assign(z, fs[0]), field, assign);
    }
  }

  lemma JoinTwo(h: Bytes, x: Bytes, y: Bytes, rest: Bytes)
    ensures Concat([x, y]) == x + y
    ensures h + Concat([x, y]) + rest == h + (x + (y + rest))
  {
    ConcatOneMore([], x);
    ConcatOneMore([x], y);
    assert [x] + [y] == [x, y];
  }

  lemma JoinThree(h: Bytes, x: Bytes, y: Bytes, z: Bytes, rest: Bytes)
    ensures Concat([x, y, z]) == x + y + z
    ensures h + Concat([x, y, z]) + rest == h + (x + (y + (z + rest)))
  {
    JoinTwo(h, x, y, []);
    ConcatOneMore([x, y], z);
    assert [x, y] + [z] == [x, y, z];
  }

  lemma DecodeOne<Z>(name: Bytes, p: Bytes, rest: Bytes, z: Z, z': Z, field: FieldDecoder<Z>)
    requires |name| < 32 && field(name, p + rest, z) == Ok(z', rest)
    ensures DecodeMap([0x81] + Concat([Field(name, p)]) + rest, z, field) == Ok(z', rest)
  {
    DecodeOneField(0, name, p, rest, z, z', field);
    DecodeSmallMap(1, Field(name, p) + rest, z, field);
    ConcatOneMore([], Field(name, p));
    assert [0x81] + Concat([Field(name, p)]) + rest == [0x81] + (Field(name, p) + rest);
  }

  lemma DecodeTwo<Z>(
    name: Bytes, p: Bytes, name': Bytes, p': Bytes, rest: Bytes, z: Z, z': Z, z'': Z, field: FieldDecoder<Z>)
    requires |name| < 32 && |name'| < 32
    requires field(name, p + (Field(name', p') + rest), z) == Ok(z', Field(name', p') + rest)
    requires field(name', p' + rest, z') == Ok(z'', rest)
    ensures DecodeMap([0x82] + Concat([Field(name, p), Field(name', p')]) + rest, z, field) == Ok(z'', rest)
  {
    var x, x' := Field(name, p), Field(name', p');
    DecodeOneField(1, name, p, x' + rest, z, z', field);
    DecodeOneField(0, name', p', rest, z', z'', field);
    DecodeSmallMap(2, x + (x' + rest), z, field);
    JoinTwo([0x82], x, x', rest);
  }

  lemma DecodeThree<Z>(
    name: Bytes, p: Bytes, name': Bytes, p': Bytes, name'': Bytes, p'': Bytes, rest: Bytes,
    z: Z, z': Z, z'': Z, last: Z, field: FieldDecoder<Z>)
    requires |name| < 32 && |name'| < 32 && |name''| < 32
    requires var r := Field(name', p') + (Field(name'', p'') + rest);
             field(name, p + r, z) == Ok(z', r)
    requires field(name', p' + (Field(name'', p'') + rest), z') == Ok(z'', Field(name'', p'') + rest)
    requires field(name'', p'' + rest, z'') == Ok(last, rest)
    ensures DecodeMap([0x83] + Concat([Field(name, p), Field(name', p'), Field(name'', p'')]) + rest, z, field)
            == Ok(last, rest)
  {
    var x, x', x'' := Field(name, p), Field(name', p'), Field(name'', p'');
    DecodeOneField(2, name, p, x' + (x'' + rest), z, z', field);
    DecodeOneField(1, name', p', x'' + rest, z', z'', field);
    DecodeOneField(0, name'', p'', rest, z'', last, field);
    DecodeSmallMap(3, x + (x' + (x'' + rest)), z, field);
    JoinThree([0x83], x, x', x'', rest);
  }

  // ---------------------------------------------------------------- array decoding

  function DecodeElements<Z>(n: nat, b: Bytes, es: seq<Z>, read: Bytes -> Result<Z>): Result<seq<Z>> {
    if n == 0 then Ok(es, b)
    else
      var r := read(b);
      if r.Err? then Err else DecodeElements(n - 1, r.rest, es + [r.value], read)
  }

  function DecodeArray<Z>(b: Bytes, read: Bytes -> Result<Z>): Result<seq<Z>> {
    var h := ReadArrayHeader(b);
    if h.Err? then Err else DecodeElements(h.value, h.rest, [], read)
  }

  lemma {:induction false} DecodeElementList<Z>(
    xs: seq<Bytes>, es: seq<Z>, rest: Bytes, before: seq<Z>, read: Bytes -> Result<Z>)
    requires |xs| == |es|
    requires forall i, r: Bytes :: 0 <= i < |es| ==> read(xs[i] + r) == Ok(es[i], r)
    ensures DecodeElements(|es|, Concat(xs) + rest, before, read) == Ok(before + es, rest)
    decreases |es|
  {
    if es == [] {
      assert Concat(xs) + rest == rest;
      assert before + es == before;
    } else {
      var tail := Concat(xs[1..]) + rest;
      assert Concat(xs) + rest == xs[0] + tail;
      DecodeElementList(xs[1..], es[1..], rest, before + [es[0]], read);
      assert before + [es[0]] + es[1..] == before + es;
    }
  }

  lemma ArrayRoundTrip<Z>(b: Bytes, xs: seq<Bytes>, es: seq<Z>, rest: Bytes, read: Bytes -> Result<Z>)
    requires |xs| == |es| && ReadArrayHeader(b) == Ok(|es|, Concat(xs) + rest)
    requires forall i, r: Bytes :: 0 <= i < |es| ==> read(xs[i] + r) == Ok(es[i], r)
    ensures DecodeArray(b, read) == Ok(es, rest)
  {
    DecodeElementList(xs, es, rest, [], read);
    assert [] + es == es;
  }

  // ---------------------------------------------------------------- the decoding loops

  /** The loop of every generated `UnmarshalMsg`: reads a header, then as many fields. */
  method UnmarshalMap<Z>(b: Bytes, zero: Z, field: FieldDecoder<Z>) returns (r: Result<Z>)
    ensures r == DecodeMap(b, zero, field)
  {
    var header := ReadMapHeader(b);
    if header.Err? {
      return Err;
    }
    var z, left, bts := zero, header.value, header.rest;
    while left > 0
      invariant DecodeFields(left, bts, z, field) == DecodeMap(b, zero, field)
    {
      var name := ReadMapKey(bts);
      if name.Err? {
        return Err;
      }
      var value := field(name.value, name.rest, z);
      if value.Err? {
        return Err;
      }
      z, bts, left := value.value, value.rest, left - 1;
    }
    r := Ok(z, bts);
  }

  method UnmarshalArray<Z>(b: Bytes, read: Bytes -> Result<Z>) returns (r: Result<seq<Z>>)
    ensures r == DecodeArray(b, read)
  {
    var header := ReadArrayHeader(b);
    if header.Err? {
      return Err;
    }
    var es, bts := [], header.rest;
    for i := 0 to header.value
      invariant DecodeElements(header.value - i, bts, es, read) == DecodeArray(b, read)
    {
      var e := read(bts);
      if e.Err? {
        return Err;
      }
      es, bts := es + [e.value], e.rest;
    }
    r := Ok(es, bts);
  }

  // ---------------------------------------------------------------- streams

  /** The messages a reader decodes one after the other before the stream ends or fails. */
  function Messages<Z>(b: Bytes, decode: Bytes -> Result<Z>): seq<Z>
    decreases |b|
  {
    var r := decode(b);
    if r.Err? || |r.rest| >= |b| then [] else [r.value] + Messages(r.rest, decode)
  }

  lemma {:induction false} MessagesOfList<Z>(
    xs: seq<Bytes>, zs: seq<Z>, remainder: Bytes, decode: Bytes -> Result<Z>)
    requires |xs| == |zs|
    requires forall i :: 0 <= i < |xs| ==> xs[i] != []
    requires forall i, r: Bytes :: 0 <= i < |zs| ==> decode(xs[i] + r) == Ok(zs[i], r)
    ensures Messages(Concat(xs) + remainder, decode) == zs + Messages(remainder, decode)
  {
    if zs == [] {
      assert Concat(xs) + remainder == remainder;
    } else {
      var tail := Concat(xs[1..]) + remainder;
      assert Concat(xs) + remainder == xs[0] + tail;
      MessagesOfList(xs[1..], zs[1..], remainder, decode);
      assert decode(xs[0] + tail) == Ok(zs[0], tail);
    }
  }
}
