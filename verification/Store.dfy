/** The memory of the store as flat maps, its write-behind database, and reloading.
    Counter values are integers. */
module Store {
  import opened Wrappers
  import opened Clock
  import opened Registers
  import opened Keys
  import opened Sums

  // ---------------------------------------------------------------- memory

  datatype Mem = Mem(
    cache: Cache, counts: Numbers, aggregates: Numbers, dirty: set<string>)

  const EMPTY := Mem(map[], map[], map[], {})

  /** The three kinds of per-node partials. */
  datatype Family = Counter | MetricCount | MetricSum

  function Prefix(f: Family): string {
    match f
    case Counter => "c"
    case MetricCount => "mc"
    case MetricSum => "ms"
  }

  /** Where the aggregate of a key is cached. */
  function AggregateKey(f: Family, key: string): string {
    match f
    case Counter => key
    case MetricCount => "m:c:" + key
    case MetricSum => "m:s:" + key
  }

  function PartialKey(f: Family, key: string, node: string): string { Compose(Prefix(f), key, node) }

  /** The names under which partials are stored and aggregates are cached. */
  lemma KeyNames(key: string, node: string)
    ensures PartialKey(Counter, key, node) == "c:" + key + ":" + node && AggregateKey(Counter, key) == key
    ensures PartialKey(MetricCount, key, node) == "mc:" + key + ":" + node
    ensures PartialKey(MetricSum, key, node) == "ms:" + key + ":" + node
    ensures AggregateKey(MetricCount, key) == "m:c:" + key && AggregateKey(MetricSum, key) == "m:s:" + key
  {
  }

  function Partial(m: Mem, f: Family, key: string, node: string): int {
    Number(m.counts, PartialKey(f, key, node))
  }

  function Aggregate(m: Mem, f: Family, key: string): int { Number(m.aggregates, AggregateKey(f, key)) }

  // ---------------------------------------------------------------- operations

  function Written(m: Mem, w: Write): Mem {
    if Ignored(m.cache, w) then m
    else m.(cache := Apply(m.cache, w), dirty := m.dirty + {w.key})
  }

  /** Adds to the entry k of the partials and to the entry a of the aggregates. */
  function Bump(m: Mem, k: string, a: string, delta: int): Mem {
    m.(counts := m.counts[k := Number(m.counts, k) + delta],
       aggregates := m.aggregates[a := Number(m.aggregates, a) + delta],
       dirty := m.dirty + {k})
  }

  function Add(m: Mem, f: Family, key: string, node: string, delta: int): Mem {
    Bump(m, PartialKey(f, key, node), AggregateKey(f, key), delta)
  }

  /** Only a larger value is taken over. */
  function SetNodeCount(m: Mem, key: string, node: string, val: int): Mem {
    var current := Partial(m, Counter, key, node);
    if val > current then Add(m, Counter, key, node, val - current) else m
  }

  function IncrementMetric(m: Mem, key: string, node: string, delta: int): Mem {
    Add(Add(m, MetricCount, key, node, 1), MetricSum, key, node, delta)
  }

  function Pruned(m: Mem, keys: set<string>, now: int): Mem {
    var cache := PruneExpired(m.cache, keys, now);
    m.(cache := cache, dirty := m.dirty + (m.cache.Keys - cache.Keys))
  }

  /** A set or delete acts on the register of its key and marks it dirty, unless it is ignored;
      reads then answer what it asks, and numbers are left alone. */
  lemma WriteActs(m: Mem, w: Write, now: int)
    ensures var r := Written(m, w);
            && r.cache == Apply(m.cache, w) && r.counts == m.counts && r.aggregates == m.aggregates
            && r.dirty == (if Ignored(m.cache, w) then m.dirty else m.dirty + {w.key})
            && (!Ignored(m.cache, w) ==> Get(r.cache, w.key, now) == Asked(w, now))
  {
    ReadAfterWrite(m.cache, w, w.key, now);
  }

  /** A prune removes exactly the registers it visits whose time is up, marks them dirty, and
      changes no read from then on. */
  lemma PruneActs(m: Mem, keys: set<string>, now: int, k: Key, later: int)
    requires now <= later
    ensures var r := Pruned(m, keys, now);
            && r.counts == m.counts && r.aggregates == m.aggregates
            && Lookup(r.cache, k)
               == (if k in keys && k in m.cache && 0 < m.cache[k].expiresAt < now then None else Lookup(m.cache, k))
            && (k in r.dirty <==> k in m.dirty || (k in m.cache && k !in r.cache))
            && Get(r.cache, k, later) == Get(m.cache, k, later)
  {
  }

  // ---------------------------------------------------------------- what a key is taken for

  datatype Class = Sequence | OfFamily(f: Family) | WindowTime | Plain

  predicate HasPrefix(s: string, p: string) { p <= s }

  function ClassOf(key: string): Class {
    if HasPrefix(key, "meta:seq:") then Sequence
    else if HasPrefix(key, "c:") then OfFamily(Counter)
    else if HasPrefix(key, "mc:") then OfFamily(MetricCount)
    else if HasPrefix(key, "ms:") then OfFamily(MetricSum)
    else if HasPrefix(key, "sw:") then WindowTime
    else Plain
  }

  /** A key is taken for a register exactly when it has none of the five reserved prefixes, as
      no colon-free key has. */
  lemma PlainExactly(key: string)
    ensures ClassOf(key) == Plain <==>
            !("meta:seq:" <= key || "c:" <= key || "mc:" <= key || "ms:" <= key || "sw:" <= key)
    ensures ClassOf(key) == WindowTime <==> "sw:" <= key
    ensures ClassOf(key) == Sequence <==> "meta:seq:" <= key
    ensures ColonFree(key) ==> ClassOf(key) == Plain
  {
    assert "meta:seq:" <= key ==> key[4] == ':';
    assert "c:" <= key ==> key[1] == ':';
    assert "mc:" <= key || "ms:" <= key || "sw:" <= key ==> key[2] == ':';
  }

  /** The aggregate a reload adds an entry to, if any. */
  function Target(x: string): Option<string> {
    match ClassOf(x)
    case OfFamily(f) => if |Split(x)| < 3 then None else Some(AggregateKey(f, Split(x)[1]))
    case _ => None
  }

  ghost predicate IsPartialKey(x: string) {
    exists f, key, node :: ColonFree(key) && x == PartialKey(f, key, node)
  }

  lemma PartialClass(f: Family, key: string, node: string)
    ensures ClassOf(PartialKey(f, key, node)) == OfFamily(f)
  {
    var k := PartialKey(f, key, node);
    match f
    case Counter => assert k[0] == 'c' && k[1] == ':';
    case MetricCount => assert k[0] == 'm' && k[1] == 'c' && k[2] == ':';
    case MetricSum => assert k[0] == 'm' && k[1] == 's' && k[2] == ':';
  }

  lemma PartialKeysArePartial(k: string)
    requires IsPartialKey(k)
    ensures ClassOf(k).OfFamily?
  {
    var f, key, node :| ColonFree(key) && k == PartialKey(f, key, node);
    PartialClass(f, key, node);
  }

  lemma SameFamilyKeys(f: Family, key: string, other: string)
    ensures AggregateKey(f, key) == AggregateKey(f, other) <==> key == other
  {
    if !f.Counter? {
      assert AggregateKey(f, key)[4..] == key && AggregateKey(f, other)[4..] == other;
    }
  }

  /** A reload adds a partial to the aggregate the live store kept it in exactly when its
      key is free of colons. */
  lemma PartialTarget(f: Family, key: string, node: string)
    ensures Target(PartialKey(f, key, node)) == Some(AggregateKey(f, key)) <==> ColonFree(key)
  {
    PartialClass(f, key, node);
    SplitComposite(Prefix(f), key, node);
    SameFamilyKeys(f, key, Split(PartialKey(f, key, node))[1]);
  }

  /** Colon-free keys of all three kinds have different aggregate keys. */
  lemma AggregateKeysDiffer(f: Family, key: string, g: Family, other: string)
    requires ColonFree(key) && ColonFree(other)
    ensures AggregateKey(f, key) == AggregateKey(g, other) <==> f == g && key == other
  {
    SameFamilyKeys(f, key, other);
    if f != g {
      assert f.Counter? || AggregateKey(f, key)[1] == ':';
      assert g.Counter? || AggregateKey(g, other)[1] == ':';
      assert f.Counter? || g.Counter? || AggregateKey(f, key)[2] != AggregateKey(g, other)[2];
    }
  }

  // ---------------------------------------------------------------- aggregates are sums

  ghost predicate Summed(m: Mem) { AddsUp(Target, m.counts, m.aggregates) }

  lemma BumpSums(target: string -> Option<string>, m: Mem, k: string, a: string, delta: int)
    requires AddsUp(target, m.counts, m.aggregates)
    ensures var m' := Bump(m, k, a, delta);
            AddsUp(target, m'.counts, m'.aggregates) <==> target(k) == Some(a) || delta == 0
  {
    RaiseSums(target, m.counts, m.aggregates, k, a, delta);
  }

  /** Adding keeps the aggregates the sums a reload would compute exactly when the key is
      free of colons, or nothing is added. */
  lemma AddKeepsSums(m: Mem, f: Family, key: string, node: string, delta: int)
    requires Summed(m)
    ensures Summed(Add(m, f, key, node, delta)) <==> ColonFree(key) || delta == 0
  {
    PartialTarget(f, key, node);
    BumpSums(Target, m, PartialKey(f, key, node), AggregateKey(f, key), delta);
  }

  // ---------------------------------------------------------------- what the operations change

  predicate Same(f: Family, key: string, node: string, g: Family, other: string, node': string) {
    f == g && key == other && node == node'
  }

  lemma PartialKeysDiffer(f: Family, key: string, node: string, g: Family, other: string, node': string)
    requires ColonFree(key) && ColonFree(other)
    ensures PartialKey(f, key, node) == PartialKey(g, other, node') <==> Same(f, key, node, g, other, node')
  {
    CompositeInjective(Prefix(f), key, node, Prefix(g), other, node');
    assert Prefix(f) == Prefix(g) <==> f == g by {
      assert Prefix(Counter)[0] == 'c' && Prefix(MetricCount)[1] == 'c' && Prefix(MetricSum)[1] == 's';
    }
  }

  /** An increment is seen by one partial and one aggregate, by exactly its delta. */
  lemma AddsOnce(m: Mem, f: Family, key: string, node: string, delta: int, g: Family, other: string, node': string)
    requires ColonFree(key) && ColonFree(other)
    ensures Partial(Add(m, f, key, node, delta), g, other, node')
            == Partial(m, g, other, node') + if Same(f, key, node, g, other, node') then delta else 0
    ensures Aggregate(Add(m, f, key, node, delta), g, other)
            == Aggregate(m, g, other) + if f == g && key == other then delta else 0
  {
    PartialKeysDiffer(f, key, node, g, other, node');
    AggregateKeysDiffer(f, key, g, other);
  }

  /** Taking over a remote count leaves the larger of the two, and all others alone. */
  lemma TakesLarger(m: Mem, key: string, node: string, val: int, g: Family, other: string, node': string)
    requires ColonFree(key) && ColonFree(other)
    ensures Partial(SetNodeCount(m, key, node, val), g, other, node')
            == if Same(Counter, key, node, g, other, node') then Max(Partial(m, Counter, key, node), val)
               else Partial(m, g, other, node')
  {
    AddsOnce(m, Counter, key, node, val - Partial(m, Counter, key, node), g, other, node');
  }

  /** A metric observation counts once and adds its delta to the sum. */
  lemma MetricAdds(m: Mem, key: string, node: string, delta: int, g: Family, other: string, node': string)
    requires ColonFree(key) && ColonFree(other)
    ensures Partial(IncrementMetric(m, key, node, delta), g, other, node')
            == Partial(m, g, other, node')
               + (if Same(MetricCount, key, node, g, other, node') then 1 else 0)
               + if Same(MetricSum, key, node, g, other, node') then delta else 0
    ensures Aggregate(IncrementMetric(m, key, node, delta), g, other)
            == Aggregate(m, g, other)
               + (if g == MetricCount && key == other then 1 else 0)
               + if g == MetricSum && key == other then delta else 0
  {
    AddsOnce(m, MetricCount, key, node, 1, g, other, node');
    AddsOnce(Add(m, MetricCount, key, node, 1), MetricSum, key, node, delta, g, other, node');
  }
}
