/** The store split into 256 shards by the hash of the key, and its refinement of one flat
    memory. Each shard holds exactly the flat memory's entries that belong to it. */
module Shards {
  import opened Wrappers
  import opened Clock
  import opened Registers
  import opened Keys
  import opened Sums
  import opened Store
  import opened Persistence

  // ---------------------------------------------------------------- slicing a memory

  /** Which shard a key belongs to. */
  type Owner = string -> nat

  function Slice<V>(m: map<string, V>, owner: Owner, i: nat): map<string, V> {
    map k | k in m && owner(k) == i :: m[k]
  }

  function SliceSet(s: set<string>, owner: Owner, i: nat): set<string> { set k | k in s && owner(k) == i }

  /** The entries of shard i; aggregates are placed by `home`, all else by `owner`. */
  function Part(m: Mem, owner: Owner, home: Owner, i: nat): Mem {
    Mem(Slice(m.cache, owner, i), Slice(m.counts, owner, i), Slice(m.aggregates, home, i),
        SliceSet(m.dirty, owner, i))
  }

  lemma SliceUpdate<V>(m: map<string, V>, owner: Owner, i: nat, k: string, v: V)
    ensures Slice(m[k := v], owner, i) == if owner(k) == i then Slice(m, owner, i)[k := v] else Slice(m, owner, i)
  {
  }

  lemma SliceAdd(s: set<string>, owner: Owner, i: nat, k: string)
    ensures SliceSet(s + {k}, owner, i) == SliceSet(s, owner, i) + if owner(k) == i then {k} else {}
  {
  }

  /** A register operation on the flat memory is the same operation in its key's shard. */
  lemma WrittenPart(m: Mem, w: Write, owner: Owner, home: Owner, i: nat)
    ensures Part(Written(m, w), owner, home, i)
            == if owner(w.key) == i then Written(Part(m, owner, home, i), w) else Part(m, owner, home, i)
  {
    SliceUpdate(m.cache, owner, i, w.key, Outcome(w));
    SliceAdd(m.dirty, owner, i, w.key);
  }

  lemma BumpCounts(m: Mem, k: string, a: string, delta: int, owner: Owner, home: Owner, i: nat)
    requires owner(k) == i
    ensures Part(Bump(m, k, a, delta), owner, home, i).counts
            == Bump(Part(m, owner, home, i), k, a, delta).counts
  {
  }

  lemma BumpAggregates(m: Mem, k: string, a: string, delta: int, owner: Owner, home: Owner, i: nat)
    requires home(a) == i
    ensures Part(Bump(m, k, a, delta), owner, home, i).aggregates
            == Bump(Part(m, owner, home, i), k, a, delta).aggregates
  {
  }

  lemma BumpDirty(m: Mem, k: string, a: string, delta: int, owner: Owner, home: Owner, i: nat)
    requires owner(k) == i
    ensures Part(Bump(m, k, a, delta), owner, home, i).dirty
            == Bump(Part(m, owner, home, i), k, a, delta).dirty
  {
  }

  /** So is adding to a partial, if its aggregate is in the same shard. */
  lemma BumpPart(m: Mem, k: string, a: string, delta: int, owner: Owner, home: Owner, i: nat)
    requires owner(k) == i && home(a) == i
    ensures Part(Bump(m, k, a, delta), owner, home, i) == Bump(Part(m, owner, home, i), k, a, delta)
  {
    BumpCounts(m, k, a, delta, owner, home, i);
    BumpAggregates(m, k, a, delta, owner, home, i);
    BumpDirty(m, k, a, delta, owner, home, i);
  }

  lemma BumpElsewhere(m: Mem, k: string, a: string, delta: int, owner: Owner, home: Owner, i: nat)
    requires owner(k) != i && home(a) != i
    ensures Part(Bump(m, k, a, delta), owner, home, i) == Part(m, owner, home, i)
  {
  }

  /** And loading a record. */
  lemma LoadPart(
    m: Mem, k: string, item: Item, target: Option<string>, now: int, owner: Owner, home: Owner, i: nat)
    requires target.Some? ==> home(target.value) == owner(k)
    ensures Part(LoadItem(m, k, item, target, now), owner, home, i)
            == if owner(k) == i then LoadItem(Part(m, owner, home, i), k, item, target, now)
               else Part(m, owner, home, i)
  {
    if item.Reg? {
      SliceUpdate(m.cache, owner, i, k, item.r);
    } else {
      SliceUpdate(m.counts, owner, i, k, item.v);
      if target.Some? {
        var a := target.value;
        SliceUpdate(m.aggregates, home, i, a, Number(m.aggregates, a) + item.v);
      }
    }
  }

  /** Pruning all expired registers is pruning each shard. */
  lemma PrunedPart(m: Mem, now: int, owner: Owner, home: Owner, i: nat)
    ensures Part(Pruned(m, m.cache.Keys, now), owner, home, i)
            == var part := Part(m, owner, home, i); Pruned(part, part.cache.Keys, now)
  {
    var part := Part(m, owner, home, i);
    var rest, rest' := PruneExpired(m.cache, m.cache.Keys, now), PruneExpired(part.cache, part.cache.Keys, now);
    assert Slice(rest, owner, i) == rest';
    forall k | owner(k) == i ensures k in rest <==> k in rest' {
      assert k in m.cache <==> k in part.cache;
    }
    assert SliceSet(m.dirty + (m.cache.Keys - rest.Keys), owner, i)
        == part.dirty + (part.cache.Keys - rest'.Keys);
  }

  ghost predicate Represents(shards: seq<Mem>, m: Mem, owner: Owner, home: Owner) {
    forall i :: 0 <= i < |shards| ==> shards[i] == Part(m, owner, home, i)
  }

  /** A cached key is in its own shard and in no other. */
  lemma OneShardEach(shards: seq<Mem>, m: Mem, owner: Owner, home: Owner, k: string, i: nat)
    requires Represents(shards, m, owner, home) && i < |shards|
    ensures k in shards[i].cache <==> k in m.cache && owner(k) == i
    ensures k in shards[i].cache ==> shards[i].cache[k] == m.cache[k]
  {
  }

  // ---------------------------------------------------------------- where entries live

  /** The shard of the key an aggregate belongs to. */
  function Home(a: string): nat {
    if HasPrefix(a, "m:c:") || HasPrefix(a, "m:s:") then ShardOf(a[4..]) else ShardOf(a)
  }

  /** The partial and the aggregate of a colon-free key live in the shard of the key. */
  lemma SameShard(f: Family, key: string, node: string)
    requires ColonFree(key)
    ensures ShardOf(PartialKey(f, key, node)) == ShardOf(key) == Home(AggregateKey(f, key))
  {
    CompositeShard(Prefix(f), key, node);
    if f.Counter? {
      assert !HasPrefix(key, "m:c:") && !HasPrefix(key, "m:s:") by {
        if |key| > 1 {
          assert key[1] in key;
        }
      }
    } else {
      assert AggregateKey(f, key)[4..] == key;
    }
  }

  // ---------------------------------------------------------------- one shard at a time

  method SetIn(shard: Mem, key: string, value: Value, ts: Timestamp, ttl: int) returns (shard': Mem)
    ensures shard' == Written(shard, Put(key, value, ts, ttl))
  {
    if key in shard.cache && GreaterOrEqual(shard.cache[key].ts, ts) {
      return shard;
    }
    var expiresAt := 0;
    if ttl > 0 {
      expiresAt := ts.physical + ttl;
    }
    shard' := shard.(cache := shard.cache[key := Register(Some(value), ts, expiresAt, false)],
                     dirty := shard.dirty + {key});
  }

  method DeleteIn(shard: Mem, key: string, ts: Timestamp) returns (shard': Mem)
    ensures shard' == Written(shard, Remove(key, ts))
  {
    if key in shard.cache && GreaterOrEqual(shard.cache[key].ts, ts) {
      return shard;
    }
    shard' := shard.(cache := shard.cache[key := Register(None, ts, ts.physical + HOUR, true)],
                     dirty := shard.dirty + {key});
  }

  /** The janitor's loop over one shard. */
  method PruneIn(shard: Mem, now: int) returns (shard': Mem)
    ensures shard' == Pruned(shard, shard.cache.Keys, now)
  {
    var todo, cache, dirty := shard.cache.Keys, shard.cache, shard.dirty;
    while todo != {}
      invariant todo <= shard.cache.Keys
      invariant cache == PruneExpired(shard.cache, shard.cache.Keys - todo, now)
      invariant dirty == shard.dirty + (shard.cache.Keys - cache.Keys)
      decreases |todo|
    {
      var key :| key in todo;
      todo := todo - {key};
      if shard.cache[key].expiresAt > 0 && now > shard.cache[key].expiresAt {
        cache := cache - {key};
        dirty := dirty + {key};
      }
    }
    shard' := shard.(cache := cache, dirty := dirty);
  }

  function Recorded(db: Database, k: string, record: Option<Item>): Database {
    match record
    case None => db - {k}
    case Some(item) => db[k := item]
  }

  function Entry(db: Database, k: string): Option<Item> { if k in db then Some(db[k]) else None }

  /** The keys in `done` are recorded anew in db', the others are as in db. */
  ghost predicate Overlaid(db: Database, done: set<string>, record: string -> Option<Item>, db': Database) {
    forall k :: Entry(db', k) == if k in done then record(k) else Entry(db, k)
  }

  lemma OverlaidIsOverlay(db: Database, done: set<string>, record: string -> Option<Item>, db': Database)
    requires Overlaid(db, done, record, db')
    ensures db' == Overlay(db, done, record)
  {
  }

  method FlushKey(shard: Mem, key: string, now: int) returns (record: Option<Item>)
    ensures record == Snapshot(shard, key, now)
  {
    if key in shard.cache {
      var r := shard.cache[key];
      if r.expiresAt > 0 && r.expiresAt - now <= 0 {
        return None;
      }
      return Some(Reg(r));
    } else if key in shard.counts {
      return Some(Num(shard.counts[key]));
    }
    return None;
  }

  /** The flusher's loop over the dirty keys of one shard. */
  method FlushKeys(shard: Mem, db: Database, now: int, ghost record: string -> Option<Item>) returns (db': Database)
    requires forall k :: k in shard.dirty ==> record(k) == Snapshot(shard, k, now)
    ensures db' == Overlay(db, shard.dirty, record)
  {
    var todo := shard.dirty;
    db' := db;
    while todo != {}
      invariant todo <= shard.dirty
      invariant Overlaid(db, shard.dirty - todo, record, db')
      decreases |todo|
    {
      var key :| key in todo;
      todo := todo - {key};
      var entry := FlushKey(shard, key, now);
      db' := Recorded(db', key, entry);
    }
    OverlaidIsOverlay(db, shard.dirty - todo, record, db');
    assert shard.dirty - todo == shard.dirty;
  }

  method FlushIn(shard: Mem, db: Database, now: int) returns (db': Database)
    ensures db' == FlushDirty(shard, db, now)
  {
    db' := FlushKeys(shard, db, now, Snapshots(shard, now));
  }

  method IncrementIn(shard: Mem, key: string, node: string, delta: int) returns (shard': Mem, total: int)
    ensures shard' == Add(shard, Counter, key, node, delta)
    ensures total == Aggregate(shard', Counter, key)
  {
    var nodeKey := "c" + ":" + key + ":" + node;
    shard' := shard.(counts := shard.counts[nodeKey := Number(shard.counts, nodeKey) + delta]);
    shard' := shard'.(aggregates := shard.aggregates[key := Number(shard.aggregates, key) + delta]);
    shard' := shard'.(dirty := shard.dirty + {nodeKey});
    total := shard'.aggregates[key];
  }

  method SetNodeCountIn(shard: Mem, key: string, node: string, val: int) returns (shard': Mem)
    ensures shard' == SetNodeCount(shard, key, node, val)
  {
    var nodeKey := "c" + ":" + key + ":" + node;
    shard' := shard;
    if val > Number(shard.counts, nodeKey) {
      var diff := val - Number(shard.counts, nodeKey);
      shard' := shard.(counts := shard.counts[nodeKey := val],
                       aggregates := shard.aggregates[key := Number(shard.aggregates, key) + diff],
                       dirty := shard.dirty + {nodeKey});
    }
  }

  method IncrementMetricIn(shard: Mem, key: string, node: string, delta: int)
    returns (shard': Mem, count: int, sum: int)
    ensures shard' == IncrementMetric(shard, key, node, delta)
    ensures count == Aggregate(shard', MetricCount, key) && sum == Aggregate(shard', MetricSum, key)
  {
    var cKey, sKey := "mc" + ":" + key + ":" + node, "ms" + ":" + key + ":" + node;
    var counts := shard.counts[cKey := Number(shard.counts, cKey) + 1];
    var aggregates := shard.aggregates["m:c:" + key := Number(shard.aggregates, "m:c:" + key) + 1];
    counts := counts[sKey := Number(counts, sKey) + delta];
    aggregates := aggregates["m:s:" + key := Number(aggregates, "m:s:" + key) + delta];
    shard' := shard.(counts := counts, aggregates := aggregates, dirty := shard.dirty + {cKey} + {sKey});
    count, sum := Number(aggregates, "m:c:" + key), Number(aggregates, "m:s:" + key);
  }

  // ---------------------------------------------------------------- all shards

  lemma WriteRepresents(shards: seq<Mem>, m: Mem, w: Write, owner: Owner, home: Owner)
    requires Represents(shards, m, owner, home) && owner(w.key) < |shards|
    ensures var j := owner(w.key);
            Represents(shards[j := Written(shards[j], w)], Written(m, w), owner, home)
  {
    forall i | 0 <= i < |shards| ensures Part(Written(m, w), owner, home, i)
                                         == if i == owner(w.key) then Written(shards[i], w) else shards[i]
    {
      WrittenPart(m, w, owner, home, i);
    }
  }

  lemma AddRepresents(shards: seq<Mem>, m: Mem, k: string, a: string, delta: int, owner: Owner, home: Owner, j: nat)
    requires Represents(shards, m, owner, home) && owner(k) == home(a) == j < |shards|
    ensures Represents(shards[j := Bump(shards[j], k, a, delta)], Bump(m, k, a, delta), owner, home)
  {
    BumpPart(m, k, a, delta, owner, home, j);
    forall i | 0 <= i < |shards| && i != j
      ensures Part(Bump(m, k, a, delta), owner, home, i) == shards[i]
    {
      BumpElsewhere(m, k, a, delta, owner, home, i);
    }
  }

  lemma LoadRepresents(
    shards: seq<Mem>, m: Mem, k: string, item: Item, target: Option<string>, now: int, owner: Owner, home: Owner)
    requires Represents(shards, m, owner, home) && owner(k) < |shards|
    requires target.Some? ==> home(target.value) == owner(k)
    ensures var j := owner(k);
            Represents(shards[j := LoadItem(shards[j], k, item, target, now)],
                       LoadItem(m, k, item, target, now), owner, home)
  {
    forall i | 0 <= i < |shards|
      ensures Part(LoadItem(m, k, item, target, now), owner, home, i)
              == if i == owner(k) then LoadItem(shards[i], k, item, target, now) else shards[i]
    {
      LoadPart(m, k, item, target, now, owner, home, i);
    }
  }

  method PruneAll(shards: seq<Mem>, now: int, ghost m: Mem, ghost owner: Owner, ghost home: Owner)
    returns (shards': seq<Mem>)
    requires Represents(shards, m, owner, home)
    ensures |shards'| == |shards| && Represents(shards', Pruned(m, m.cache.Keys, now), owner, home)
  {
    shards' := [];
    for i := 0 to |shards|
      invariant |shards'| == i
      invariant Represents(shards', Pruned(m, m.cache.Keys, now), owner, home)
    {
      PrunedPart(m, now, owner, home, i);
      var shard := PruneIn(shards[i], now);
      shards' := shards' + [shard];
    }
  }

  ghost function Below(s: set<string>, owner: Owner, i: nat): set<string> { set k | k in s && owner(k) < i }

  /** Flushing shard i after those before it. */
  lemma FlushNext(db: Database, db': Database, m: Mem, now: int, owner: Owner, home: Owner, i: nat)
    requires Overlaid(db, Below(m.dirty, owner, i), Snapshots(m, now), db')
    ensures Overlaid(db, Below(m.dirty, owner, i + 1), Snapshots(m, now), FlushDirty(Part(m, owner, home, i), db', now))
  {
  }

  method FlushAll(shards: seq<Mem>, db: Database, now: int, ghost m: Mem, ghost owner: Owner, ghost home: Owner)
    returns (shards': seq<Mem>, db': Database)
    requires Represents(shards, m, owner, home) && forall k :: k in m.dirty ==> owner(k) < |shards|
    ensures |shards'| == |shards| && Represents(shards', m.(dirty := {}), owner, home)
    ensures db' == FlushDirty(m, db, now)
  {
    shards', db' := [], db;
    for i := 0 to |shards|
      invariant |shards'| == i
      invariant Represents(shards', m.(dirty := {}), owner, home)
      invariant Overlaid(db, Below(m.dirty, owner, i), Snapshots(m, now), db')
    {
      FlushNext(db, db', m, now, owner, home, i);
      db' := FlushIn(shards[i], db', now);
      shards' := shards' + [shards[i].(dirty := {})];
    }
    assert Below(m.dirty, owner, |shards|) == m.dirty;
    OverlaidIsOverlay(db, m.dirty, Snapshots(m, now), db');
  }

  lemma BelowNext(cache: Cache, owner: Owner, i: nat)
    ensures |Below(cache.Keys, owner, i + 1)| == |Below(cache.Keys, owner, i)| + |Slice(cache, owner, i)|
  {
    var slice := Slice(cache, owner, i);
    assert Below(cache.Keys, owner, i + 1) == Below(cache.Keys, owner, i) + slice.Keys;
    assert Below(cache.Keys, owner, i) !! slice.Keys;
    assert |slice| == |slice.Keys|;
  }

  /** The number of cached keys, shard by shard. */
  method CountAll(shards: seq<Mem>, ghost m: Mem, ghost owner: Owner, ghost home: Owner) returns (n: nat)
    requires Represents(shards, m, owner, home) && forall k :: k in m.cache ==> owner(k) < |shards|
    ensures n == |m.cache.Keys|
  {
    n := 0;
    assert Below(m.cache.Keys, owner, 0) == {};
    for i := 0 to |shards|
      invariant n == |Below(m.cache.Keys, owner, i)|
    {
      BelowNext(m.cache, owner, i);
      n := n + |shards[i].cache|;
    }
    assert Below(m.cache.Keys, owner, |shards|) == m.cache.Keys;
  }

  method GetShard(key: string) returns (j: nat)
    ensures j == ShardOf(key)
  {
    var h := Hash(ShardKey(key));
    j := h as int % SHARDS;
  }

  /** One record, in the shard of its key. */
  method LoadOne(
    shards: seq<Mem>, k: string, item: Item, now: int,
    ghost seen: Database, ghost m: Mem, ghost target: string -> Option<string>, ghost owner: Owner, ghost home: Owner)
    returns (shards': seq<Mem>, ghost m': Mem)
    requires Represents(shards, m, owner, home) && |shards| == SHARDS
    requires Loaded(seen, now, m, target) && k !in seen
    requires Typed(k, item) && owner(k) == ShardOf(k) && target(k) == Target(k)
    requires target(k).Some? ==> home(target(k).value) == owner(k)
    ensures |shards'| == SHARDS && Represents(shards', m', owner, home)
    ensures Loaded(seen[k := item], now, m', target)
  {
    LoadRepresents(shards, m, k, item, target(k), now, owner, home);
    LoadStep(seen, k, item, now, m, target);
    var j := GetShard(k);
    var shard := LoadRecord(shards[j], k, item, now);
    shards', m' := shards[j := shard], LoadItem(m, k, item, target(k), now);
  }

  lemma NothingLoaded(now: int, target: string -> Option<string>, owner: Owner, home: Owner)
    ensures Loaded(map[], now, EMPTY, target)
    ensures Represents(seq(SHARDS, _ => EMPTY), EMPTY, owner, home)
  {
  }

  method LoadAll(
    db: Database, now: int, ghost target: string -> Option<string>, ghost owner: Owner, ghost home: Owner)
    returns (shards: seq<Mem>, ghost m: Mem)
    requires forall k :: k in db ==> Typed(k, db[k]) && owner(k) == ShardOf(k) && target(k) == Target(k)
    requires forall k :: k in db && target(k).Some? ==> home(target(k).value) == owner(k)
    ensures |shards| == SHARDS && Represents(shards, m, owner, home)
    ensures Loaded(db, now, m, target)
  {
    shards, m := seq(SHARDS, _ => EMPTY), EMPTY;
    NothingLoaded(now, target, owner, home);
    var todo := db.Keys;
    WithoutEnds(db);
    while todo != {}
      invariant todo <= db.Keys && Loaded(Without(db, todo), now, m, target)
      invariant |shards| == SHARDS && Represents(shards, m, owner, home)
      decreases |todo|
    {
      var k :| k in todo;
      WithoutStep(db, todo, k);
      shards, m := LoadOne(shards, k, db[k], now, Without(db, todo), m, target, owner, home);
      todo := todo - {k};
    }
  }

  lemma SliceNumber(m: Numbers, owner: Owner, k: string)
    ensures Number(Slice(m, owner, owner(k)), k) == Number(m, k)
  {
  }

  /** The shard of a colon-free key knows its partials and its aggregates. */
  lemma ReadIn(shards: seq<Mem>, m: Mem, f: Family, key: string, node: string)
    requires |shards| == SHARDS && Represents(shards, m, ShardOf, Home) && ColonFree(key)
    ensures Partial(shards[ShardOf(key)], f, key, node) == Partial(m, f, key, node)
    ensures Aggregate(shards[ShardOf(key)], f, key) == Aggregate(m, f, key)
  {
    SameShard(f, key, node);
    SliceNumber(m.counts, ShardOf, PartialKey(f, key, node));
    SliceNumber(m.aggregates, Home, AggregateKey(f, key));
  }

  lemma CountedIn(shards: seq<Mem>, m: Mem, f: Family, key: string, node: string, delta: int)
    requires |shards| == SHARDS && Represents(shards, m, ShardOf, Home) && ColonFree(key)
    ensures var j := ShardOf(key);
            && Represents(shards[j := Add(shards[j], f, key, node, delta)], Add(m, f, key, node, delta), ShardOf, Home)
            && Aggregate(Add(shards[j], f, key, node, delta), f, key) == Aggregate(Add(m, f, key, node, delta), f, key)
  {
    SameShard(f, key, node);
    ReadIn(shards, m, f, key, node);
    AddRepresents(shards, m, PartialKey(f, key, node), AggregateKey(f, key), delta, ShardOf, Home, ShardOf(key));
  }

  lemma MeasuredIn(shards: seq<Mem>, m: Mem, key: string, node: string, delta: int)
    requires |shards| == SHARDS && Represents(shards, m, ShardOf, Home) && ColonFree(key)
    ensures var j, m' := ShardOf(key), Store.IncrementMetric(m, key, node, delta);
            var shard := Store.IncrementMetric(shards[j], key, node, delta);
            && Represents(shards[j := shard], m', ShardOf, Home)
            && Aggregate(shard, MetricCount, key) == Aggregate(m', MetricCount, key)
            && Aggregate(shard, MetricSum, key) == Aggregate(m', MetricSum, key)
  {
    var j := ShardOf(key);
    var shards1, m1 := shards[j := Add(shards[j], MetricCount, key, node, 1)], Add(m, MetricCount, key, node, 1);
    CountedIn(shards, m, MetricCount, key, node, 1);
    CountedIn(shards1, m1, MetricSum, key, node, delta);
    var shards2, m2 := shards1[j := Add(shards1[j], MetricSum, key, node, delta)], Add(m1, MetricSum, key, node, delta);
    assert shards2 == shards[j := Store.IncrementMetric(shards[j], key, node, delta)];
    ReadIn(shards2, m2, MetricCount, key, node);
  }

  lemma RecordHome(k: string, item: Item)
    requires if item.Reg? then ClassOf(k) == Plain else IsPartialKey(k)
    ensures Typed(k, item) && (Target(k).Some? ==> Home(Target(k).value) == ShardOf(k))
  {
    if item.Num? {
      var f, key, node :| ColonFree(key) && k == PartialKey(f, key, node);
      PartialClass(f, key, node);
      PartialTarget(f, key, node);
      SameShard(f, key, node);
    }
  }

  // ---------------------------------------------------------------- the store

  class ShardedStore {
    var shards: seq<Mem>

    /** The one memory the shards stand for. */
    ghost var flat: Mem

    ghost predicate Valid()
      reads this
    {
      |shards| == SHARDS && Represents(shards, flat, ShardOf, Home)
    }

    /** Opens a store on a database. */
    constructor (db: Database, now: int)
      requires forall k :: k in db ==> if db[k].Reg? then ClassOf(k) == Plain else IsPartialKey(k)
      ensures Valid() && Loaded(db, now, flat, Target)
    {
      forall k | k in db ensures Typed(k, db[k]) && (Target(k).Some? ==> Home(Target(k).value) == ShardOf(k)) {
        RecordHome(k, db[k]);
      }
      var loaded, m := LoadAll(db, now, Target, ShardOf, Home);
      shards, flat := loaded, m;
    }

    method Set(key: string, value: Value, ts: Timestamp, ttl: int)
      requires Valid()
      modifies this
      ensures Valid() && flat == Written(old(flat), Put(key, value, ts, ttl))
    {
      var j := GetShard(key);
      WriteRepresents(shards, flat, Put(key, value, ts, ttl), ShardOf, Home);
      var shard := SetIn(shards[j], key, value, ts, ttl);
      shards := shards[j := shard];
      flat := Written(flat, Put(key, value, ts, ttl));
    }

    method Delete(key: string, ts: Timestamp)
      requires Valid()
      modifies this
      ensures Valid() && flat == Written(old(flat), Remove(key, ts))
    {
      var j := GetShard(key);
      WriteRepresents(shards, flat, Remove(key, ts), ShardOf, Home);
      var shard := DeleteIn(shards[j], key, ts);
      shards := shards[j := shard];
      flat := Written(flat, Remove(key, ts));
    }

    method Get(key: string, now: int) returns (value: Option<Value>)
      requires Valid()
      ensures value == Registers.Get(flat.cache, key, now)
    {
      var j := GetShard(key);
      if key in shards[j].cache {
        var r := shards[j].cache[key];
        if r.deleted || (r.expiresAt > 0 && now > r.expiresAt) {
          return None;
        }
        return r.value;
      }
      return None;
    }

    method Exists(key: string, now: int) returns (b: bool)
      requires Valid()
      ensures b <==> Live(flat.cache, key, now)
    {
      var j := GetShard(key);
      if key in shards[j].cache {
        var r := shards[j].cache[key];
        return !r.deleted && !(r.expiresAt > 0 && now > r.expiresAt);
      }
      return false;
    }

    /** Adds to the partial of a node; the answer is the key's new total. */
    method Increment(key: string, node: string, delta: int) returns (total: int)
      requires Valid() && ColonFree(key)
      modifies this
      ensures Valid() && flat == Add(old(flat), Counter, key, node, delta)
      ensures total == Aggregate(flat, Counter, key)
    {
      var j := GetShard(key);
      CountedIn(shards, flat, Counter, key, node, delta);
      var shard;
      shard, total := IncrementIn(shards[j], key, node, delta);
      shards := shards[j := shard];
      flat := Add(flat, Counter, key, node, delta);
    }

    method GetNodeCount(key: string, node: string) returns (val: int)
      requires Valid() && ColonFree(key)
      ensures val == Partial(flat, Counter, key, node)
    {
      var j := GetShard(key);
      ReadIn(shards, flat, Counter, key, node);
      val := Number(shards[j].counts, "c" + ":" + key + ":" + node);
    }

    method SetNodeCount(key: string, node: string, val: int)
      requires Valid() && ColonFree(key)
      modifies this
      ensures Valid() && flat == Store.SetNodeCount(old(flat), key, node, val)
    {
      var j := GetShard(key);
      ReadIn(shards, flat, Counter, key, node);
      CountedIn(shards, flat, Counter, key, node, val - Partial(flat, Counter, key, node));
      var shard := SetNodeCountIn(shards[j], key, node, val);
      shards := shards[j := shard];
      flat := Store.SetNodeCount(flat, key, node, val);
    }

    method GetAggregateCount(key: string) returns (total: int)
      requires Valid() && ColonFree(key)
      ensures total == Aggregate(flat, Counter, key)
    {
      var j := GetShard(key);
      ReadIn(shards, flat, Counter, key, "");
      total := Number(shards[j].aggregates, key);
    }

    method IncrementMetric(key: string, node: string, delta: int) returns (count: int, sum: int)
      requires Valid() && ColonFree(key)
      modifies this
      ensures Valid() && flat == Store.IncrementMetric(old(flat), key, node, delta)
      ensures count == Aggregate(flat, MetricCount, key) && sum == Aggregate(flat, MetricSum, key)
    {
      var j := GetShard(key);
      MeasuredIn(shards, flat, key, node, delta);
      var shard;
      shard, count, sum := IncrementMetricIn(shards[j], key, node, delta);
      shards := shards[j := shard];
      flat := Store.IncrementMetric(flat, key, node, delta);
    }

    method GetAggregateMetric(key: string) returns (count: int, sum: int)
      requires Valid() && ColonFree(key)
      ensures count == Aggregate(flat, MetricCount, key) && sum == Aggregate(flat, MetricSum, key)
    {
      var j := GetShard(key);
      ReadIn(shards, flat, MetricCount, key, "");
      ReadIn(shards, flat, MetricSum, key, "");
      count, sum := Number(shards[j].aggregates, "m:c:" + key), Number(shards[j].aggregates, "m:s:" + key);
    }

    method PruneExpiredKeys(now: int)
      requires Valid()
      modifies this
      ensures Valid() && flat == Pruned(old(flat), old(flat).cache.Keys, now)
    {
      shards := PruneAll(shards, now, flat, ShardOf, Home);
      flat := Pruned(flat, flat.cache.Keys, now);
    }

    method CacheSize() returns (n: nat)
      requires Valid()
      ensures n == |flat.cache|
    {
      n := CountAll(shards, flat, ShardOf, Home);
    }

    /** Writes what is dirty to the database. */
    method Flush(db: Database, now: int) returns (db': Database)
      requires Valid()
      modifies this
      ensures Valid() && flat == old(flat).(dirty := {})
      ensures db' == FlushDirty(old(flat), db, now)
    {
      shards, db' := FlushAll(shards, db, now, flat, ShardOf, Home);
      flat := flat.(dirty := {});
    }
  }
}
