/** The key encoding of store.go: composite keys for per-node partials, the part of a key
    that chooses its shard, and what reloading reads back from a key. */
module Keys {

  const SHARDS := 256

  /** The part of s before its first colon, or all of it. */
  function UpTo(s: string): string {
    if s == [] || s[0] == ':' then [] else [s[0]] + UpTo(s[1..])
  }

  /** The part of s after its first colon, or nothing. */
  function AfterColon(s: string): string {
    if s == [] then [] else if s[0] == ':' then s[1..] else AfterColon(s[1..])
  }

  predicate ColonFree(s: string) { ':' !in s }

  /** The part of a key that is hashed: all of a colon-free key, else what lies between
      its first and second colon. */
  function ShardKey(key: string): string {
    if ColonFree(key) then key else UpTo(AfterColon(key))
  }

  function Compose(prefix: string, key: string, node: string): string {
    prefix + ":" + key + ":" + node
  }

  /** The first colon separates the two parts. */
  lemma {:induction false} PartsOf(s: string)
    ensures ColonFree(UpTo(s))
    ensures s == if ColonFree(s) then UpTo(s) else UpTo(s) + ":" + AfterColon(s)
    ensures ColonFree(s) ==> AfterColon(s) == []
  {
    if s != [] && s[0] != ':' {
      PartsOf(s[1..]);
      assert s == [s[0]] + s[1..];
    } else if s != [] {
      assert s == ":" + s[1..];
    }
  }

  /** Joining with colons. */
  function Join(parts: seq<string>): string
    requires parts != []
  {
    if |parts| == 1 then parts[0] else parts[0] + ":" + Join(parts[1..])
  }

  /** Splitting at every colon. */
  function Split(s: string): seq<string>
    decreases |s|
  {
    if ColonFree(s) then [s] else AfterColonIsShorter(s); [UpTo(s)] + Split(AfterColon(s))
  }

  /** Splitting is undone by joining, and leaves no colon in any part. */
  lemma {:induction false} SplitJoins(s: string)
    ensures Split(s) != [] && Join(Split(s)) == s
    ensures forall i :: 0 <= i < |Split(s)| ==> ColonFree(Split(s)[i])
    decreases |s|
  {
    if !ColonFree(s) {
      PartsOf(s);
      AfterColonIsShorter(s);
      SplitJoins(AfterColon(s));
      assert Split(s)[1..] == Split(AfterColon(s));
    }
  }

  lemma {:induction false} AfterColonIsShorter(s: string)
    ensures !ColonFree(s) ==> |AfterColon(s)| < |s|
  {
    if s != [] && s[0] != ':' {
      AfterColonIsShorter(s[1..]);
      assert s == [s[0]] + s[1..];
    }
  }

  lemma {:induction false} ColonFreeIsWhole(s: string)
    requires ColonFree(s)
    ensures UpTo(s) == s && AfterColon(s) == []
  {
    if s != [] {
      assert s == [s[0]] + s[1..];
      assert s[0] in s;
      forall c | c in s[1..] ensures c in s {}
      ColonFreeIsWhole(s[1..]);
    }
  }

  /** The first colon of a + ":" + b is a's first colon or the one in between. */
  lemma {:induction false} FirstColon(a: string, b: string)
    ensures UpTo(a + ":" + b) == UpTo(a)
    ensures ColonFree(a) ==> AfterColon(a + ":" + b) == b
    ensures !ColonFree(a) ==> AfterColon(a + ":" + b) == AfterColon(a) + ":" + b
    ensures !ColonFree(a + ":" + b)
  {
    var s := a + ":" + b;
    assert s[|a|] == ':';
    if a == [] {
      assert s[1..] == b;
    } else {
      assert s[1..] == a[1..] + ":" + b;
      assert a == [a[0]] + a[1..];
      if a[0] != ':' {
        FirstColon(a[1..], b);
      } else {
        assert a[0] in a;
      }
    }
  }

  /** A composite key is hashed on the first segment of the user key. */
  lemma CompositeShardKey(prefix: string, key: string, node: string)
    requires ColonFree(prefix)
    ensures ShardKey(Compose(prefix, key, node)) == UpTo(key)
  {
    assert Compose(prefix, key, node) == prefix + ":" + (key + ":" + node);
    FirstColon(prefix, key + ":" + node);
    FirstColon(key, node);
  }

  /** Reload and live access meet in the same shard exactly when the first segment of the
      user key is the part that is hashed; all colon-free keys qualify. */
  lemma SameShardKey(prefix: string, key: string, node: string)
    requires ColonFree(prefix)
    ensures ShardKey(Compose(prefix, key, node)) == ShardKey(key) <==> UpTo(key) == ShardKey(key)
    ensures ColonFree(key) ==> ShardKey(Compose(prefix, key, node)) == ShardKey(key)
  {
    CompositeShardKey(prefix, key, node);
    if ColonFree(key) {
      ColonFreeIsWhole(key);
    }
  }

  /** A counter named a:b is kept under b and reloaded under a. */
  lemma ColonKeyMovesShard(node: string)
    ensures ShardKey("a:b") == "b" && ShardKey(Compose("c", "a:b", node)) == "a"
  {
    FirstColon("a", "b");
    ColonFreeIsWhole("a");
    ColonFreeIsWhole("b");
    assert "a" + ":" + "b" == "a:b";
    CompositeShardKey("c", "a:b", node);
  }

  /** What the encoding can be taken apart into. */
  lemma Decompose(prefix: string, key: string, node: string)
    requires ColonFree(prefix) && ColonFree(key)
    ensures UpTo(Compose(prefix, key, node)) == prefix
    ensures UpTo(AfterColon(Compose(prefix, key, node))) == key
    ensures AfterColon(AfterColon(Compose(prefix, key, node))) == node
  {
    assert Compose(prefix, key, node) == prefix + ":" + (key + ":" + node);
    FirstColon(prefix, key + ":" + node);
    FirstColon(key, node);
    ColonFreeIsWhole(prefix);
    ColonFreeIsWhole(key);
  }

  /** On colon-free keys and any node ids the composite keys are injective in prefix, key
      and node, so partials of different keys, nodes or kinds never share an entry. */
  lemma CompositeInjective(p: string, k: string, n: string, p': string, k': string, n': string)
    requires ColonFree(p) && ColonFree(k) && ColonFree(p') && ColonFree(k')
    ensures Compose(p, k, n) == Compose(p', k', n') <==> p == p' && k == k' && n == n'
  {
    Decompose(p, k, n);
    Decompose(p', k', n');
  }

  /** Colons in a key make two partials collide. */
  lemma ColonKeysCollide(node: string)
    ensures Compose("c", "a:b", node) == Compose("c", "a", "b:" + node)
  {
  }

  lemma {:induction false} SplitJoined(a: string, b: string)
    ensures Split(a + ":" + b) == Split(a) + Split(b)
    decreases |a|
  {
    FirstColon(a, b);
    if ColonFree(a) {
      ColonFreeIsWhole(a);
    } else {
      AfterColonIsShorter(a);
      SplitJoined(AfterColon(a), b);
    }
  }

  /** Splitting a composite key gives back the prefix, the segments of the key and those of
      the node; the second part is the key exactly when the key is colon-free. */
  lemma SplitComposite(prefix: string, key: string, node: string)
    requires ColonFree(prefix)
    ensures Split(Compose(prefix, key, node)) == [prefix] + Split(key) + Split(node)
    ensures |Split(Compose(prefix, key, node))| >= 3
    ensures Split(Compose(prefix, key, node))[1] == key <==> ColonFree(key)
  {
    assert Compose(prefix, key, node) == prefix + ":" + (key + ":" + node);
    SplitJoined(prefix, key + ":" + node);
    SplitJoined(key, node);
    if !ColonFree(key) {
      UpToIsShorter(key);
    }
  }

  lemma {:induction false} UpToIsShorter(s: string)
    requires !ColonFree(s)
    ensures UpTo(s) != s
  {
    if s[0] != ':' {
      assert s == [s[0]] + s[1..];
      UpToIsShorter(s[1..]);
    }
  }

  // ---------------------------------------------------------------- sharding

  /** One round of the hash. */
  function Round(h: bv32, b: bv32): bv32 { (h ^ b) * 16777619 }

  function LowByte(c: char): bv32 { ((c as int) % 256) as bv32 }

  function Mix(h: bv32, c: char): bv32 { Round(h, LowByte(c)) }

  function HashFrom(h: bv32, s: string): bv32
    decreases |s|
  {
    if s == [] then h else HashFrom(Mix(h, s[0]), s[1..])
  }

  /** The FNV-1a hash. */
  method Hash(s: string) returns (h: bv32)
    ensures h == HashFrom(2166136261, s)
  {
    h := 2166136261;
    for i := 0 to |s|
      invariant HashFrom(h, s[i..]) == HashFrom(2166136261, s)
    {
      assert s[i..][1..] == s[i + 1..];
      h := Mix(h, s[i]);
    }
  }

  lemma HashStep(h: bv32, c: char, s: string, b: bv32, r: bv32)
    requires LowByte(c) == b && Round(h, b) == r
    ensures HashFrom(h, [c] + s) == HashFrom(r, s)
  {
    assert ([c] + s)[1..] == s;
  }

  lemma Foobar()
    ensures Round(2166136261, 102) == 0xe30c2799 && Round(0xe30c2799, 111) == 0x6222e842
    ensures Round(0x6222e842, 111) == 0xa9f37ed7 && Round(0xa9f37ed7, 98) == 0x3f5076ef
    ensures Round(0x3f5076ef, 97) == 0x39aaa18a && Round(0x39aaa18a, 114) == 0xbf9cf968
    ensures Round(2166136261, 97) == 0xe40c292c
  {
  }

  lemma LetterA()
    ensures LowByte('a') == 97
  {
  }

  lemma LetterB()
    ensures LowByte('b') == 98
  {
  }

  lemma LetterF()
    ensures LowByte('f') == 102
  {
  }

  lemma LetterO()
    ensures LowByte('o') == 111
  {
  }

  lemma LetterR()
    ensures LowByte('r') == 114
  {
  }

  /** The published test vectors of the 32-bit FNV-1a hash. */
  lemma HashVectors()
    ensures HashFrom(2166136261, "") == 0x811c9dc5 && HashFrom(2166136261, "a") == 0xe40c292c
    ensures HashFrom(2166136261, "foobar") == 0xbf9cf968
  {
    Foobar();
    LetterA();
    LetterB();
    LetterF();
    LetterO();
    LetterR();
    HashStep(2166136261, 'a', "", 97, 0xe40c292c);
    HashStep(2166136261, 'f', "oobar", 102, 0xe30c2799);
    HashStep(0xe30c2799, 'o', "obar", 111, 0x6222e842);
    HashStep(0x6222e842, 'o', "bar", 111, 0xa9f37ed7);
    HashStep(0xa9f37ed7, 'b', "ar", 98, 0x3f5076ef);
    HashStep(0x3f5076ef, 'a', "r", 97, 0x39aaa18a);
    HashStep(0x39aaa18a, 'r', "", 114, 0xbf9cf968);
    assert "a" == ['a'] + "" && "foobar" == ['f'] + "oobar" && "oobar" == ['o'] + "obar";
    assert "obar" == ['o'] + "bar" && "bar" == ['b'] + "ar" && "ar" == ['a'] + "r" && "r" == ['r'] + "";
  }

  function ShardOf(key: string): (i: nat)
    ensures i < SHARDS
  {
    (HashFrom(2166136261, ShardKey(key)) as int) % SHARDS
  }

  lemma HashesAsNumbers(h: bv32)
    ensures h == 0xe40c292c ==> h as int % 256 == 44
    ensures h == 0xbf9cf968 ==> h as int % 256 == 104
  {
  }

  lemma HashVector(key: string)
    requires key == "a" || key == "foobar"
    ensures HashFrom(2166136261, key) == if key == "a" then 0xe40c292c else 0xbf9cf968
  {
    HashVectors();
  }

  lemma ShardFromHash(key: string, h: bv32)
    requires ColonFree(key) && HashFrom(2166136261, key) == h
    ensures ShardOf(key) == h as int % 256
  {
  }

  /** The shards of two keys, by those vectors. */
  lemma ShardVectors(key: string)
    requires key == "a" || key == "foobar"
    ensures ShardOf(key) == if key == "a" then 44 else 104
  {
    HashVector(key);
    var h := HashFrom(2166136261, key);
    ShardFromHash(key, h);
    HashesAsNumbers(h);
  }

  /** Each kind of partial lands in the shard of its bare key. */
  lemma CompositeShard(prefix: string, key: string, node: string)
    requires ColonFree(prefix) && ColonFree(key)
    ensures ShardOf(Compose(prefix, key, node)) == ShardOf(key)
  {
    SameShardKey(prefix, key, node);
  }
}
