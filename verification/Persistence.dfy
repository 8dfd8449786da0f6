/** The store's write-behind database: flushing dirty keys, losing expired entries,
    restarting from what was written. */
module Persistence {
  import opened Wrappers
  import opened Clock
  import opened Registers
  import opened Keys
  import opened Sums
  import opened Store

  /** A record of the database: a register, or the value of a partial. */
  datatype Item = Reg(r: Register) | Num(v: int)

  type Database = map<string, Item>

  /** Flushing drops a register whose time is up, at the very instant too. */
  predicate Lapsed(r: Register, now: int) { r.expiresAt > 0 && r.expiresAt <= now }

  /** What a flush makes of a dirty key: a record, or a deletion. */
  function Snapshot(m: Mem, k: string, now: int): Option<Item> {
    if k in m.cache then if Lapsed(m.cache[k], now) then None else Some(Reg(m.cache[k]))
    else if k in m.counts then Some(Num(m.counts[k]))
    else None
  }

  function Snapshots(m: Mem, now: int): string -> Option<Item> { k => Snapshot(m, k, now) }

  /** The database with some keys recorded anew. */
  function Overlay(db: Database, dirty: set<string>, record: string -> Option<Item>): Database {
    map k | k in db.Keys + dirty && (k in dirty ==> record(k).Some?) ::
      if k in dirty then record(k).value else db[k]
  }

  function FlushDirty(m: Mem, db: Database, now: int): Database {
    Overlay(db, m.dirty, Snapshots(m, now))
  }

  /** A flush records a dirty register exactly while time remains of it, deletes what is gone or
      has none left, records a number, and leaves other records alone. */
  lemma FlushRecords(m: Mem, db: Database, now: int, k: string)
    ensures var r := FlushDirty(m, db, now);
            && (k !in m.dirty ==> (k in r <==> k in db) && (k in db ==> r[k] == db[k]))
            && (k in m.dirty && k in m.cache ==>
                  && (k in r <==> m.cache[k].expiresAt <= 0 || m.cache[k].expiresAt - now > 0)
                  && (k in r ==> r[k] == Reg(m.cache[k])))
            && (k in m.dirty && k !in m.cache ==>
                  && (k in r <==> k in m.counts) && (k in r ==> r[k] == Num(m.counts[k])))
  {
  }

  /** The database may lose a record once its time to live has run out. */
  function Evict(db: Database, keys: set<string>, now: int): Database {
    map k | k in db && !(k in keys && db[k].Reg? && Lapsed(db[k].r, now)) :: db[k]
  }

  // ---------------------------------------------------------------- loading

  /** What `load` does with one record. */
  function LoadItem(m: Mem, k: string, item: Item, target: Option<string>, now: int): Mem {
    if item.Reg? then
      if Expired(item.r, now) then m else m.(cache := m.cache[k := item.r])
    else
      m.(counts := m.counts[k := item.v],
         aggregates := match target
                       case None => m.aggregates
                       case Some(a) => m.aggregates[a := Number(m.aggregates, a) + item.v])
  }

  ghost function LoadedCounts(db: Database): Numbers { map k | k in db && db[k].Num? :: db[k].v }

  ghost function LoadedCache(db: Database, now: int): Cache {
    map k | k in db && db[k].Reg? && !Expired(db[k].r, now) :: db[k].r
  }

  /** m is what a load makes of the database: all unexpired registers, all partials, and as
      aggregates the sums of the partials by what they feed. */
  ghost predicate Loaded(db: Database, now: int, m: Mem, target: string -> Option<string>) {
    && m.cache == LoadedCache(db, now)
    && m.counts == LoadedCounts(db)
    && AddsUp(target, m.counts, m.aggregates)
    && m.dirty == {}
  }

  lemma LoadedMaps(db: Database, k: string, item: Item, now: int)
    ensures LoadedCounts(db[k := item])
            == if item.Num? then LoadedCounts(db)[k := item.v] else LoadedCounts(db) - {k}
    ensures LoadedCache(db[k := item], now)
            == if item.Reg? && !Expired(item.r, now) then LoadedCache(db, now)[k := item.r]
               else LoadedCache(db, now) - {k}
  {
  }

  lemma NewEntrySummed(target: string -> Option<string>, counts: Numbers, sums: Numbers, k: string, v: int)
    requires AddsUp(target, counts, sums) && k !in counts
    ensures match target(k)
            case None => AddsUp(target, counts[k := v], sums)
            case Some(a) => AddsUp(target, counts[k := v], sums[a := Number(sums, a) + v])
  {
    match target(k)
    case Some(a) => RaiseSums(target, counts, sums, k, a, v);
    case None =>
      forall b ensures Number(sums, b) == Total(target, counts[k := v], b) {
        UnfedTotal(target, counts, k, v, b);
      }
  }

  /** Loading one more record extends what is loaded by just that record. */
  lemma LoadStep(db: Database, k: string, item: Item, now: int, m: Mem, target: string -> Option<string>)
    requires Loaded(db, now, m, target) && k !in db
    ensures Loaded(db[k := item], now, LoadItem(m, k, item, target(k), now), target)
  {
    LoadedMaps(db, k, item, now);
    assert LoadedCounts(db) - {k} == LoadedCounts(db);
    assert LoadedCache(db, now) - {k} == LoadedCache(db, now);
    if item.Num? {
      NewEntrySummed(target, m.counts, m.aggregates, k, item.v);
    }
  }

  /** The records outside `todo`. */
  ghost function Without(db: Database, todo: set<string>): Database { map k | k in db && k !in todo :: db[k] }

  lemma WithoutStep(db: Database, todo: set<string>, k: string)
    requires k in todo && k in db
    ensures k !in Without(db, todo)
    ensures Without(db, todo - {k}) == Without(db, todo)[k := db[k]]
  {
  }

  lemma WithoutEnds(db: Database)
    ensures Without(db, db.Keys) == map[] && Without(db, {}) == db
  {
  }

  /** Registers are kept under plain keys, numbers under those of partials. */
  predicate Typed(k: string, item: Item) {
    match ClassOf(k)
    case Plain => item.Reg?
    case OfFamily(_) => item.Num?
    case _ => false
  }

  /** One record, told apart by the prefix of its key. */
  method LoadRecord(m: Mem, k: string, item: Item, now: int) returns (m': Mem)
    requires Typed(k, item)
    ensures m' == LoadItem(m, k, item, Target(k), now)
  {
    m' := m;
    match ClassOf(k)
    case OfFamily(f) =>
      m' := m.(counts := m.counts[k := item.v]);
      var parts := Split(k);
      if |parts| >= 3 {
        var a := AggregateKey(f, parts[1]);
        m' := m'.(aggregates := m.aggregates[a := Number(m.aggregates, a) + item.v]);
      }
    case Plain =>
      if !Expired(item.r, now) {
        m' := m.(cache := m.cache[k := item.r]);
      }
    case _ =>
  }

  /** Loads a database into an empty store. */
  method Load(db: Database, now: int) returns (m: Mem)
    requires forall k :: k in db ==> Typed(k, db[k])
    ensures Loaded(db, now, m, Target)
  {
    m := LoadRecords(db, now, Target);
  }

  /** Record by record, in any order. */
  method LoadRecords(db: Database, now: int, ghost target: string -> Option<string>) returns (m: Mem)
    requires forall k :: k in db ==> Typed(k, db[k]) && target(k) == Target(k)
    ensures Loaded(db, now, m, target)
  {
    m := EMPTY;
    EmptySummed(target);
    var todo := db.Keys;
    WithoutEnds(db);
    while todo != {}
      invariant todo <= db.Keys && Loaded(Without(db, todo), now, m, target)
      decreases |todo|
    {
      var k :| k in todo;
      WithoutStep(db, todo, k);
      LoadStep(Without(db, todo), k, db[k], now, m, target);
      m := LoadRecord(m, k, db[k], now);
      todo := todo - {k};
    }
  }

  // ---------------------------------------------------------------- runs

  datatype State = State(m: Mem, db: Database, now: int)

  datatype Step =
    | WriteRegister(w: Write)
    | Increment(key: string, node: string, delta: int)
    | TakeCount(key: string, node: string, val: int)
    | Measure(key: string, node: string, delta: int)
    | PruneKeys(keys: set<string>)
    | Flush
    | Expire(keys: set<string>)
    | Wait(until: int)
    | Restart(m: Mem)

  /** Registers avoid the reserved prefixes; counters and metrics have colon-free keys; a
      restart loads the database. */
  ghost predicate Enabled(s: State, step: Step) {
    match step
    case WriteRegister(w) => ClassOf(w.key) == Plain
    case Increment(key, _, _) => ColonFree(key)
    case TakeCount(key, _, _) => ColonFree(key)
    case Measure(key, _, _) => ColonFree(key)
    case Restart(m) => Loaded(s.db, s.now, m, Target)
    case _ => true
  }

  function Next(s: State, step: Step): State {
    match step
    case WriteRegister(w) => s.(m := Written(s.m, w))
    case Increment(key, node, delta) => s.(m := Add(s.m, Counter, key, node, delta))
    case TakeCount(key, node, val) => s.(m := SetNodeCount(s.m, key, node, val))
    case Measure(key, node, delta) => s.(m := IncrementMetric(s.m, key, node, delta))
    case PruneKeys(keys) => s.(m := Pruned(s.m, keys, s.now))
    case Flush => s.(m := s.m.(dirty := {}), db := FlushDirty(s.m, s.db, s.now))
    case Expire(keys) => s.(db := Evict(s.db, keys, s.now))
    case Wait(until) => s.(now := Max(s.now, until))
    case Restart(m) => s.(m := m)
  }

  function Fresh(now: int): State { State(EMPTY, map[], now) }

  function Run(now: int, steps: seq<Step>): State {
    if steps == [] then Fresh(now) else Next(Run(now, steps[..|steps| - 1]), steps[|steps| - 1])
  }

  ghost predicate AllEnabled(now: int, steps: seq<Step>) {
    forall i :: 0 <= i < |steps| ==> Enabled(Run(now, steps[..i]), steps[i])
  }

  /** Every register and partial, in memory and in the database, is under a key of its kind. */
  ghost predicate Keyed(s: State) {
    && (forall k :: k in s.m.cache ==> ClassOf(k) == Plain)
    && (forall k :: k in s.m.counts ==> IsPartialKey(k))
    && (forall k :: k in s.db ==> if s.db[k].Reg? then ClassOf(k) == Plain else IsPartialKey(k))
  }

  /** The memory and the database agree on a key, up to registers whose time is up. */
  predicate InSync(m: Mem, db: Database, now: int, k: string) {
    if k in m.cache then
      (k in db && db[k] == Reg(m.cache[k])) || (k !in db && Lapsed(m.cache[k], now))
    else if k in m.counts then k in db && db[k] == Num(m.counts[k])
    else k in db ==> db[k].Reg? && Expired(db[k].r, now)
  }

  ghost predicate Synced(s: State) {
    forall k :: k !in s.m.dirty ==> InSync(s.m, s.db, s.now, k)
  }

  ghost predicate Inv(s: State) { Keyed(s) && Synced(s) && Summed(s.m) }

  lemma AddKeepsKeys(s: State, f: Family, key: string, node: string, delta: int)
    requires Keyed(s) && Synced(s) && ColonFree(key)
    ensures Keyed(s.(m := Add(s.m, f, key, node, delta))) && Synced(s.(m := Add(s.m, f, key, node, delta)))
  {
  }

  lemma AddKeepsInv(s: State, f: Family, key: string, node: string, delta: int)
    requires Inv(s) && ColonFree(key)
    ensures Inv(s.(m := Add(s.m, f, key, node, delta)))
  {
    AddKeepsSums(s.m, f, key, node, delta);
    AddKeepsKeys(s, f, key, node, delta);
  }

  lemma WriteKeeps(s: State, w: Write)
    requires Keyed(s) && Synced(s) && ClassOf(w.key) == Plain
    ensures Keyed(s.(m := Written(s.m, w))) && Synced(s.(m := Written(s.m, w)))
  {
  }

  lemma PruneKeeps(s: State, keys: set<string>)
    requires Keyed(s) && Synced(s)
    ensures var s' := Next(s, PruneKeys(keys)); Keyed(s') && Synced(s')
  {
  }

  /** A flush brings every dirty key into agreement and disturbs no other. */
  lemma FlushKeeps(s: State)
    requires Keyed(s) && Synced(s)
    ensures var s' := Next(s, Flush); Keyed(s') && Synced(s')
  {
  }

  lemma ExpireKeeps(s: State, keys: set<string>)
    requires Keyed(s) && Synced(s)
    ensures var s' := Next(s, Expire(keys)); Keyed(s') && Synced(s')
  {
  }

  lemma WaitKeeps(s: State, until: int)
    requires Keyed(s) && Synced(s)
    ensures var s' := Next(s, Wait(until)); Keyed(s') && Synced(s')
  {
  }

  /** A restart forgets what was dirty and nothing else. */
  lemma RestartKeeps(s: State, m: Mem)
    requires Keyed(s)
    requires m.cache == LoadedCache(s.db, s.now) && m.counts == LoadedCounts(s.db) && m.dirty == {}
    ensures Keyed(s.(m := m)) && Synced(s.(m := m))
  {
  }

  lemma NextKeepsInv(s: State, step: Step)
    requires Inv(s) && Enabled(s, step)
    ensures Inv(Next(s, step))
  {
    match step
    case WriteRegister(w) => WriteKeeps(s, w);
    case Increment(key, node, delta) => AddKeepsInv(s, Counter, key, node, delta);
    case TakeCount(key, node, val) =>
      AddKeepsInv(s, Counter, key, node, val - Partial(s.m, Counter, key, node));
    case Measure(key, node, delta) =>
      AddKeepsInv(s, MetricCount, key, node, 1);
      AddKeepsInv(s.(m := Add(s.m, MetricCount, key, node, 1)), MetricSum, key, node, delta);
    case PruneKeys(keys) => PruneKeeps(s, keys);
    case Flush => FlushKeeps(s);
    case Expire(keys) => ExpireKeeps(s, keys);
    case Wait(until) => WaitKeeps(s, until);
    case Restart(m) => RestartKeeps(s, m);
  }

  lemma EmptySummed(target: string -> Option<string>)
    ensures AddsUp(target, map[], map[])
  {
  }

  /** Over every run of register, counter and metric operations, prunes, flushes and
      restarts, a key that is not dirty agrees with the database, and every cached aggregate
      is the sum of what feeds it. */
  lemma {:induction false} RunKeepsInv(now: int, steps: seq<Step>)
    requires AllEnabled(now, steps)
    ensures Inv(Run(now, steps))
  {
    if steps == [] {
      EmptySummed(Target);
    } else {
      var before := steps[..|steps| - 1];
      forall i | 0 <= i < |before| ensures Enabled(Run(now, before[..i]), before[i]) {
        assert before[..i] == steps[..i];
      }
      RunKeepsInv(now, before);
      NextKeepsInv(Run(now, before), steps[|steps| - 1]);
    }
  }

  // ---------------------------------------------------------------- what a restart restores

  /** What memory m holds under k is what it was, less a register whose time is up. */
  predicate Restored(was: Mem, m: Mem, now: int, k: string) {
    && (k in m.cache ==> k in was.cache && m.cache[k] == was.cache[k])
    && (k in was.cache && !Lapsed(was.cache[k], now) ==> k in m.cache)
    && (k in m.counts <==> k in was.counts)
    && (k in m.counts ==> m.counts[k] == was.counts[k])
  }

  lemma KeyRestored(s: State, later: int, m: Mem, k: string)
    requires Keyed(s) && InSync(s.m, s.db, s.now, k) && s.now <= later
    requires m.cache == LoadedCache(s.db, later) && m.counts == LoadedCounts(s.db)
    ensures Restored(s.m, m, later, k)
  {
  }

  /** A restart at any moment of any run finds every clean key as it was. */
  lemma CleanKeysSurvive(now: int, steps: seq<Step>, later: int, m: Mem)
    requires AllEnabled(now, steps) && Run(now, steps).now <= later
    requires Loaded(Run(now, steps).db, later, m, Target)
    ensures forall k :: k !in Run(now, steps).m.dirty ==> Restored(Run(now, steps).m, m, later, k)
  {
    RunKeepsInv(now, steps);
    var s := Run(now, steps);
    forall k | k !in s.m.dirty ensures Restored(s.m, m, later, k) {
      assert InSync(s.m, s.db, s.now, k);
      KeyRestored(s, later, m, k);
    }
  }

  lemma SameSums(target: string -> Option<string>, counts: Numbers, sums: Numbers, sums': Numbers)
    requires AddsUp(target, counts, sums) && AddsUp(target, counts, sums')
    ensures forall a :: Number(sums, a) == Number(sums', a)
  {
  }

  /** From then on all reads answer as before. */
  lemma SameAnswers(was: Mem, m: Mem, later: int)
    requires forall k :: Restored(was, m, later, k)
    ensures m.counts == was.counts
    ensures forall k, t :: t > later ==> Get(m.cache, k, t) == Get(was.cache, k, t)
  {
    forall k, t | t > later ensures Get(m.cache, k, t) == Get(was.cache, k, t) {
      assert Restored(was, m, later, k);
    }
    forall k
      ensures k in m.counts <==> k in was.counts
      ensures k in m.counts ==> m.counts[k] == was.counts[k]
    {
      assert Restored(was, m, later, k);
    }
    assert m.counts == was.counts;
  }

  lemma AllRestored(s: State, later: int, m: Mem)
    requires Keyed(s) && Synced(s) && s.m.dirty == {} && s.now <= later
    requires m.cache == LoadedCache(s.db, later) && m.counts == LoadedCounts(s.db)
    ensures forall k :: Restored(s.m, m, later, k)
  {
    forall k ensures Restored(s.m, m, later, k) {
      assert InSync(s.m, s.db, s.now, k);
      KeyRestored(s, later, m, k);
    }
  }

  /** Write-behind persistence: a flush after any run, followed by a load into a fresh store,
      restores every register and tombstone whose time is not up and invents none, every
      per-node count and every aggregate; from then on all reads answer as before. */
  lemma FlushThenLoad(now: int, steps: seq<Step>, later: int, m: Mem)
    requires AllEnabled(now, steps) && Run(now, steps).now <= later
    requires Loaded(Next(Run(now, steps), Flush).db, later, m, Target)
    ensures var was := Next(Run(now, steps), Flush).m;
            && (forall k :: Restored(was, m, later, k))
            && m.counts == was.counts
            && (forall a :: Number(m.aggregates, a) == Number(was.aggregates, a))
            && (forall k, t :: t > later ==> Get(m.cache, k, t) == Get(was.cache, k, t))
  {
    RunKeepsInv(now, steps);
    var s := Next(Run(now, steps), Flush);
    FlushKeeps(Run(now, steps));
    AllRestored(s, later, m);
    SameAnswers(s.m, m, later);
    SameSums(Target, s.m.counts, s.m.aggregates, m.aggregates);
  }

  /** Closing a store after any run and opening it again. */
  method Reopen(s: State, later: int, ghost now: int, ghost steps: seq<Step>) returns (m: Mem)
    requires AllEnabled(now, steps) && s == Run(now, steps) && s.now <= later
    ensures forall k :: Restored(Next(s, Flush).m, m, later, k)
    ensures forall a :: Number(m.aggregates, a) == Number(s.m.aggregates, a)
    ensures Enabled(Next(Next(s, Flush), Wait(later)), Restart(m))
  {
    RunKeepsInv(now, steps);
    FlushKeeps(s);
    var db := FlushDirty(s.m, s.db, s.now);
    forall k | k in db ensures Typed(k, db[k]) {
      RecordTyped(Next(s, Flush), k);
    }
    m := Load(db, later);
    FlushThenLoad(now, steps, later, m);
  }

  lemma RecordTyped(s: State, k: string)
    requires Keyed(s) && k in s.db
    ensures Typed(k, s.db[k])
  {
    if s.db[k].Num? {
      PartialKeysArePartial(k);
    }
  }

  // ---------------------------------------------------------------- the sum of the nodes

  /** The partials of one key, over all nodes. */
  ghost function Partials(counts: Numbers, f: Family, key: string): set<string> {
    set x | x in counts && exists node :: x == PartialKey(f, key, node)
  }

  lemma FeedsItsKey(x: string, f: Family, key: string)
    requires IsPartialKey(x) && ColonFree(key)
    ensures Target(x) == Some(AggregateKey(f, key)) <==> exists node :: x == PartialKey(f, key, node)
  {
    var g, other, node' :| ColonFree(other) && x == PartialKey(g, other, node');
    PartialTarget(g, other, node');
    AggregateKeysDiffer(f, key, g, other);
    forall node | x == PartialKey(f, key, node) ensures Target(x) == Some(AggregateKey(f, key)) {
      PartialTarget(f, key, node);
    }
  }

  /** After any run, restarts included, the cached aggregate of a counter or metric is the
      sum of its partials over all nodes. */
  lemma AggregateIsSum(now: int, steps: seq<Step>, f: Family, key: string)
    requires AllEnabled(now, steps) && ColonFree(key)
    ensures var m := Run(now, steps).m;
            Aggregate(m, f, key) == Sum(Partials(m.counts, f, key), m.counts)
  {
    RunKeepsInv(now, steps);
    var m := Run(now, steps).m;
    forall x | x in m.counts
      ensures Target(x) == Some(AggregateKey(f, key)) <==> exists node :: x == PartialKey(f, key, node)
    {
      FeedsItsKey(x, f, key);
    }
    assert Feeding(Target, m.counts, AggregateKey(f, key)) == Partials(m.counts, f, key);
    assert Aggregate(m, f, key) == Total(Target, m.counts, AggregateKey(f, key));
  }
}
