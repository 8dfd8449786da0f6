/** The last-write-wins registers of store.go, as one flat map: merging writes, what any
    order of the same writes leaves behind, and pruning of expired registers. */
module Registers {
  import opened Wrappers
  import opened Clock

  type Key = string
  type Value = string

  /** A cached value or, when `deleted`, a tombstone. `expiresAt` 0 means never. */
  datatype Register = Register(value: Option<Value>, ts: Timestamp, expiresAt: int, deleted: bool)

  /** A call of `set` or `delete` on the store; `ttl` is in nanoseconds. */
  datatype Write =
    | Put(key: Key, value: Value, ts: Timestamp, ttl: int)
    | Remove(key: Key, ts: Timestamp)

  type Cache = map<Key, Register>

  function Outcome(w: Write): Register {
    match w
    case Put(_, value, ts, ttl) =>
      Register(Some(value), ts, if ttl > 0 then ts.physical + ttl else 0, false)
    case Remove(_, ts) =>
      Register(None, ts, ts.physical + HOUR, true)
  }

  /** A write is ignored when the register already holds a timestamp at least as new. */
  predicate Ignored(c: Cache, w: Write) {
    w.key in c && GreaterOrEqual(c[w.key].ts, w.ts)
  }

  function Apply(c: Cache, w: Write): Cache {
    if Ignored(c, w) then c else c[w.key := Outcome(w)]
  }

  function Replay(ws: seq<Write>): Cache {
    if ws == [] then map[]
    else Apply(Replay(ws[..|ws| - 1]), ws[|ws| - 1])
  }

  predicate Expired(r: Register, now: int) { r.expiresAt > 0 && now > r.expiresAt }

  predicate Live(c: Cache, k: Key, now: int) {
    k in c && !c[k].deleted && !Expired(c[k], now)
  }

  function Get(c: Cache, k: Key, now: int): Option<Value> {
    if Live(c, k, now) then c[k].value else None
  }

  function Lookup(c: Cache, k: Key): Option<Register> {
    if k in c then Some(c[k]) else None
  }

  // ---------------------------------------------------------------- what a read answers

  /** Whether a value stored at this time with this TTL is still there: a TTL that is not
      positive never ends, nor does one that would end at or before time zero. */
  predicate Lasts(at: int, ttl: int, now: int) { ttl <= 0 || at + ttl <= 0 || now <= at + ttl }

  /** What a write asks later reads of its key to answer. */
  function Asked(w: Write, now: int): Option<Value> {
    match w
    case Put(_, value, ts, ttl) => if Lasts(ts.physical, ttl, now) then Some(value) else None
    case Remove(_, _) => None
  }

  /** A read after a write: the key answers what the write asks, unless the write was ignored,
      and every other key answers as before. The key exists exactly when a read answers it. */
  lemma ReadAfterWrite(c: Cache, w: Write, k: Key, now: int)
    ensures !Ignored(c, w) ==> Get(Apply(c, w), w.key, now) == Asked(w, now)
    ensures !Ignored(c, w) ==> (Live(Apply(c, w), w.key, now) <==> Asked(w, now).Some?)
    ensures Ignored(c, w) || k != w.key ==> Get(Apply(c, w), k, now) == Get(c, k, now)
    ensures Ignored(c, w) || k != w.key ==> (Live(Apply(c, w), k, now) <==> Live(c, k, now))
  {
  }

  /** An unset key answers nothing. */
  lemma ReadUnset(c: Cache, k: Key, now: int)
    requires k !in c
    ensures Get(c, k, now) == None && !Live(c, k, now)
  {
  }

  /** Of the writes to k, write i is a newest one and the first of them to arrive. */
  ghost predicate Reigns(ws: seq<Write>, i: nat, k: Key) {
    && i < |ws| && ws[i].key == k
    && (forall j :: 0 <= j < i && ws[j].key == k ==> After(ws[i].ts, ws[j].ts))
    && (forall j :: i < j < |ws| && ws[j].key == k ==> !After(ws[j].ts, ws[i].ts))
  }

  lemma ReignsOneMore(ws: seq<Write>, w: Write, i: nat, k: Key)
    requires Reigns(ws, i, k)
    ensures w.key == k && After(w.ts, ws[i].ts) ==> Reigns(ws + [w], |ws|, k)
    ensures !(w.key == k && After(w.ts, ws[i].ts)) ==> Reigns(ws + [w], i, k)
  {
    var more := ws + [w];
    forall j | 0 <= j < |ws| ensures more[j] == ws[j] {}
  }

  ghost predicate Touches(ws: seq<Write>, k: Key) { exists j :: 0 <= j < |ws| && ws[j].key == k }

  /** A replay leaves, for each key written, the outcome of the first newest write to it. */
  lemma {:induction false} ReplayReigns(ws: seq<Write>, k: Key) returns (i: nat)
    ensures k in Replay(ws) <==> Touches(ws, k)
    ensures Touches(ws, k) ==> Reigns(ws, i, k) && Lookup(Replay(ws), k) == Some(Outcome(ws[i]))
  {
    i := 0;
    if ws != [] {
      var n := |ws| - 1;
      i := ReplayReigns(ws[..n], k);
      assert ws == ws[..n] + [ws[n]];
      if Touches(ws[..n], k) {
        ReignsOneMore(ws[..n], ws[n], i, k);
      }
      if ws[n].key == k && !Ignored(Replay(ws[..n]), ws[n]) {
        i := n;
      }
    }
  }

  lemma ReadsOutcome(c: Cache, w: Write, now: int)
    requires Lookup(c, w.key) == Some(Outcome(w))
    ensures Get(c, w.key, now) == Asked(w, now) && (Live(c, w.key, now) <==> Asked(w, now).Some?)
  {
  }

  /** Every read of a key answers what the first newest write to it asks, and nothing when
      there is none. */
  lemma ReplayReads(ws: seq<Write>, k: Key, now: int) returns (i: nat)
    ensures !Touches(ws, k) ==> Get(Replay(ws), k, now) == None && !Live(Replay(ws), k, now)
    ensures Touches(ws, k) ==>
              && Reigns(ws, i, k) && Get(Replay(ws), k, now) == Asked(ws[i], now)
              && (Live(Replay(ws), k, now) <==> Asked(ws[i], now).Some?)
  {
    i := ReplayReigns(ws, k);
    if Touches(ws, k) {
      ReadsOutcome(Replay(ws), ws[i], now);
    } else {
      ReadUnset(Replay(ws), k, now);
    }
  }

  // ---------------------------------------------------------------- convergence

  /** Write i is to key k and no write to k is newer. */
  ghost predicate Wins(ws: seq<Write>, i: nat, k: Key) {
    && i < |ws| && ws[i].key == k
    && forall j :: 0 <= j < |ws| && ws[j].key == k ==> GreaterOrEqual(ws[i].ts, ws[j].ts)
  }

  /** A replay leaves, for each key written, the outcome of a newest write to it. */
  lemma {:induction false} ReplayKeepsAWinner(ws: seq<Write>, k: Key) returns (i: nat)
    ensures k in Replay(ws) <==> exists j :: 0 <= j < |ws| && ws[j].key == k
    ensures k in Replay(ws) ==> Wins(ws, i, k) && Replay(ws)[k] == Outcome(ws[i])
  {
    i := 0;
    if ws != [] {
      var n := |ws| - 1;
      i := ReplayKeepsAWinner(ws[..n], k);
      if ws[n].key == k && !Ignored(Replay(ws[..n]), ws[n]) {
        i := n;
      }
    }
  }

  /** The stamps a sequence of writes leaves behind, whatever their order and number. */
  ghost function Stamps(ws: seq<Write>): set<(Key, Timestamp)> {
    set w | w in ws :: (w.key, w.ts)
  }

  lemma StampedKey(ws: seq<Write>, j: nat)
    requires j < |ws|
    ensures (ws[j].key, ws[j].ts) in Stamps(ws)
  {
  }

  lemma StampOfWrite(ws: seq<Write>, k: Key, ts: Timestamp) returns (j: nat)
    requires (k, ts) in Stamps(ws)
    ensures j < |ws| && ws[j].key == k && ws[j].ts == ts
  {
    var w :| w in ws && (w.key, w.ts) == (k, ts);
    j :| 0 <= j < |ws| && ws[j] == w;
  }

  lemma ReplayTimestampBelow(ws1: seq<Write>, ws2: seq<Write>, k: Key)
    requires Stamps(ws1) <= Stamps(ws2) && k in Replay(ws1)
    ensures k in Replay(ws2) && GreaterOrEqual(Replay(ws2)[k].ts, Replay(ws1)[k].ts)
  {
    var i := ReplayKeepsAWinner(ws1, k);
    StampedKey(ws1, i);
    var j := StampOfWrite(ws2, k, ws1[i].ts);
    var i2 := ReplayKeepsAWinner(ws2, k);
  }

  /** Two replicas that merged the same stamps, in any orders and with any duplicates,
      hold the same timestamp in every register, ties included. */
  lemma TimestampsConverge(ws1: seq<Write>, ws2: seq<Write>)
    requires Stamps(ws1) == Stamps(ws2)
    ensures Replay(ws1).Keys == Replay(ws2).Keys
    ensures forall k :: k in Replay(ws1) ==> Replay(ws1)[k].ts == Replay(ws2)[k].ts
  {
    forall k | k in Replay(ws1) ensures k in Replay(ws2) && Replay(ws1)[k].ts == Replay(ws2)[k].ts {
      ReplayTimestampBelow(ws1, ws2, k);
      ReplayTimestampBelow(ws2, ws1, k);
    }
    forall k | k in Replay(ws2) ensures k in Replay(ws1) {
      ReplayTimestampBelow(ws2, ws1, k);
    }
  }

  /** All newest writes to k leave the same register. */
  ghost predicate Settled(ws: seq<Write>, k: Key) {
    forall i: nat, j: nat :: Wins(ws, i, k) && Wins(ws, j, k) ==> Outcome(ws[i]) == Outcome(ws[j])
  }

  ghost function Elements(ws: seq<Write>): set<Write> { set w | w in ws }

  /** A newest write that arrives first is never displaced. */
  lemma {:induction false} FirstArrivalStays(ws: seq<Write>, k: Key)
    requires Wins(ws, 0, k)
    ensures Lookup(Replay(ws), k) == Some(Outcome(ws[0]))
  {
    var n := |ws| - 1;
    if n > 0 {
      assert Wins(ws[..n], 0, k);
      FirstArrivalStays(ws[..n], k);
    }
  }

  lemma SettledIsOrderFree(ws: seq<Write>, other: seq<Write>, k: Key)
    requires Settled(ws, k) && Elements(ws) == Elements(other)
    ensures Lookup(Replay(ws), k) == Lookup(Replay(other), k)
  {
    forall w ensures w in ws <==> w in other {
      assert w in Elements(ws) <==> w in ws;
      assert w in Elements(other) <==> w in other;
    }
    var i := ReplayKeepsAWinner(ws, k);
    var j := ReplayKeepsAWinner(other, k);
    if k in Replay(ws) || k in Replay(other) {
      if k in Replay(ws) { assert ws[i] in other; }
      if k in Replay(other) { assert other[j] in ws; }
      var i' :| 0 <= i' < |ws| && ws[i'] == other[j];
      forall m | 0 <= m < |ws| && ws[m].key == k ensures GreaterOrEqual(ws[i'].ts, ws[m].ts) {
        assert ws[m] in other;
      }
      assert Wins(ws, i', k);
    }
  }

  lemma TwoOrdersDiffer(ws: seq<Write>, k: Key, i: nat, j: nat) returns (a: seq<Write>, b: seq<Write>)
    requires Wins(ws, i, k) && Wins(ws, j, k) && Outcome(ws[i]) != Outcome(ws[j])
    ensures Elements(a) == Elements(ws) == Elements(b)
    ensures Lookup(Replay(a), k) != Lookup(Replay(b), k)
  {
    a, b := [ws[i]] + ws, [ws[j]] + ws;
    assert Wins(a, 0, k) && Wins(b, 0, k);
    FirstArrivalStays(a, k);
    FirstArrivalStays(b, k);
  }

  /** The register a set of writes leaves does not depend on their order and repetition
      exactly when its newest writes agree: on a tie the first arrival wins. */
  lemma OrderFreeExactlyWhenSettled(ws: seq<Write>, k: Key)
    ensures Settled(ws, k) <==>
            (forall a, b :: Elements(a) == Elements(ws) == Elements(b) ==>
                              Lookup(Replay(a), k) == Lookup(Replay(b), k))
  {
    if Settled(ws, k) {
      forall a, b | Elements(a) == Elements(ws) == Elements(b)
        ensures Lookup(Replay(a), k) == Lookup(Replay(b), k)
      {
        SettledIsOrderFree(ws, a, k);
        SettledIsOrderFree(ws, b, k);
      }
    } else {
      var i: nat, j: nat :| Wins(ws, i, k) && Wins(ws, j, k) && Outcome(ws[i]) != Outcome(ws[j]);
      var a, b := TwoOrdersDiffer(ws, k, i, j);
    }
  }

  // ---------------------------------------------------------------- replication of a write

  /** `Duration.Milliseconds` truncates toward zero. */
  function Milliseconds(ttl: int): int {
    if ttl >= 0 then ttl / MILLISECOND else -((-ttl) / MILLISECOND)
  }

  /** The write a peer performs for a local write: its TTL crosses the wire in milliseconds. */
  function Wire(w: Write): Write {
    if w.Put? then w.(ttl := Milliseconds(w.ttl) * MILLISECOND) else w
  }

  predicate WholeMilliseconds(w: Write) {
    w.Put? ==> w.ttl <= 0 || w.ttl % MILLISECOND == 0
  }

  /** A peer stores the same register as the writer exactly when a positive TTL is a
      whole number of milliseconds (wall clocks do not read times before 1970). */
  lemma WireOutcome(w: Write)
    ensures WholeMilliseconds(w) ==> Outcome(Wire(w)) == Outcome(w)
    ensures w.ts.physical >= 0 && Outcome(Wire(w)) == Outcome(w) ==> WholeMilliseconds(w)
    ensures Wire(w).key == w.key && Wire(w).ts == w.ts
  {
  }

  /** A positive TTL below a millisecond expires at the writer and never at its peers. */
  lemma SubMillisecondNeverExpires(w: Write, now: int)
    requires w.Put? && 0 < w.ttl < MILLISECOND && 0 <= w.ts.physical && w.ts.physical + w.ttl < now
    ensures Expired(Outcome(w), now) && !Expired(Outcome(Wire(w)), now)
  {
  }

  // ---------------------------------------------------------------- pruning

  /** A pruned cache beside one that never prunes, at wall time `now`. */
  datatype Twin = Twin(pruned: Cache, full: Cache, now: int)

  datatype TwinStep = Advance(now: int) | Merge(w: Write) | Prune(keys: set<Key>)

  /** The prune loop visits shards one at a time, so a pass may reach any set of keys. */
  function PruneExpired(c: Cache, keys: set<Key>, now: int): Cache {
    map k | k in c && !(k in keys && Expired(c[k], now)) :: c[k]
  }

  function TwinNext(t: Twin, step: TwinStep): Twin {
    match step
    case Advance(now) => t.(now := Max(t.now, now))
    case Merge(w) => t.(pruned := Apply(t.pruned, w), full := Apply(t.full, w))
    case Prune(keys) => t.(pruned := PruneExpired(t.pruned, keys, t.now))
  }

  /** Writes to a pruned key carry a timestamp above the pruned one. */
  predicate Admissible(t: Twin, step: TwinStep) {
    step.Merge? ==>
      var k := step.w.key;
      k in t.full && k !in t.pruned ==> After(step.w.ts, t.full[k].ts)
  }

  predicate AllAdmissible(t: Twin, steps: seq<TwinStep>)
    decreases |steps|
  {
    steps != [] ==> Admissible(t, steps[0]) && AllAdmissible(TwinNext(t, steps[0]), steps[1..])
  }

  function TwinRun(t: Twin, steps: seq<TwinStep>): Twin
    decreases |steps|
  {
    if steps == [] then t else TwinRun(TwinNext(t, steps[0]), steps[1..])
  }

  ghost predicate Unobserved(t: Twin) {
    && (forall k :: k in t.pruned ==> k in t.full && t.full[k] == t.pruned[k])
    && (forall k :: k in t.full && k !in t.pruned ==> Expired(t.full[k], t.now))
  }

  /** Pruning at arbitrary moments is unobservable: every later read answers as if nothing
      had been pruned. */
  lemma {:induction false} PruningUnobservable(t: Twin, steps: seq<TwinStep>, k: Key)
    requires Unobserved(t) && AllAdmissible(t, steps)
    ensures var r := TwinRun(t, steps);
            Unobserved(r) && Get(r.pruned, k, r.now) == Get(r.full, k, r.now)
            && (Live(r.pruned, k, r.now) <==> Live(r.full, k, r.now))
    decreases |steps|
  {
    if steps != [] {
      PruningUnobservable(TwinNext(t, steps[0]), steps[1..], k);
    }
  }

  /** Without the hypothesis a pruned key can come back: a write to it is answered alike
      exactly when it is newer than what was pruned or is itself not live. */
  lemma PrunedKeyRevives(t: Twin, w: Write)
    requires Unobserved(t) && w.key in t.full && w.key !in t.pruned
    ensures var r := TwinNext(t, Merge(w));
            (Live(r.pruned, w.key, r.now) <==> Live(r.full, w.key, r.now)) <==>
              (After(w.ts, t.full[w.key].ts) || w.Remove? || Expired(Outcome(w), t.now))
  {
  }

  /** A prune that reaches a tombstone keeps it exactly through the hour after its timestamp,
      and only while it is there is an older write ignored: later it brings the key back. */
  lemma TombstoneLasts(c: Cache, k: Key, ts: Timestamp, keys: set<Key>, now: int, older: Write)
    requires !Ignored(c, Remove(k, ts)) && k in keys && ts.physical >= 0
    requires older.key == k && GreaterOrEqual(ts, older.ts)
    ensures var pruned := PruneExpired(Apply(c, Remove(k, ts)), keys, now);
            && (k in pruned <==> now <= ts.physical + 3_600_000_000_000)
            && (k in pruned ==> Apply(pruned, older) == pruned && Get(pruned, k, now) == None)
            && (k !in pruned ==> Get(Apply(pruned, older), k, now) == Asked(older, now))
  {
    if k !in PruneExpired(Apply(c, Remove(k, ts)), keys, now) {
      ReadAfterWrite(PruneExpired(Apply(c, Remove(k, ts)), keys, now), older, k, now);
    }
  }
}
