/** What a store holds after any run, restarts included, against an account of the calls: the
    registers answer the calls made on them, and the numbers add up to them. */
module Ledger {
  import opened Wrappers
  import opened Clock
  import opened Registers
  import opened Keys
  import opened Sums
  import opened Store
  import opened Persistence

  // ---------------------------------------------------------------- the account

  /** The sets and deletes of a run, in order. */
  function Writes(steps: seq<Step>): seq<Write> {
    if steps == [] then []
    else
      var last := steps[|steps| - 1];
      Writes(steps[..|steps| - 1]) + if last.WriteRegister? then [last.w] else []
  }

  /** What the calls of a run make of one number of a node: increments and observations add, a
      count taken over replaces a smaller one. */
  function Account(steps: seq<Step>, f: Family, key: string, node: string): int {
    if steps == [] then 0
    else
      var before := Account(steps[..|steps| - 1], f, key, node);
      match steps[|steps| - 1]
      case Increment(k, n, delta) => if f == Counter && k == key && n == node then before + delta else before
      case TakeCount(k, n, val) =>
        if f == Counter && k == key && n == node && val > before then val else before
      case Measure(k, n, delta) =>
        if k != key || n != node || f == Counter then before
        else if f == MetricCount then before + 1
        else before + delta
      case _ => before
  }

  /** The latest time that was waited for. */
  function Latest(now: int, steps: seq<Step>): int {
    if steps == [] then now
    else
      var before, last := Latest(now, steps[..|steps| - 1]), steps[|steps| - 1];
      if last.Wait? && last.until > before then last.until else before
  }

  lemma {:induction false} TimePasses(now: int, steps: seq<Step>)
    ensures Run(now, steps).now == Latest(now, steps)
  {
    if steps != [] {
      TimePasses(now, steps[..|steps| - 1]);
    }
  }

  // ---------------------------------------------------------------- orderly runs

  /** A store is closed before it is opened again: everything was flushed. */
  predicate Clean(s: State, step: Step) { step.Restart? ==> s.m.dirty == {} }

  ghost predicate AllClean(now: int, steps: seq<Step>) {
    steps == [] ||
    (AllClean(now, steps[..|steps| - 1]) && Clean(Run(now, steps[..|steps| - 1]), steps[|steps| - 1]))
  }

  /** A write to a key that was pruned or not loaded again is newer than what was there. */
  ghost predicate Newer(s: State, writes: seq<Write>, step: Step) {
    step.WriteRegister? && step.w.key in Replay(writes) && step.w.key !in s.m.cache ==>
      After(step.w.ts, Replay(writes)[step.w.key].ts)
  }

  ghost predicate AllNewer(now: int, steps: seq<Step>) {
    steps == [] ||
    (AllNewer(now, steps[..|steps| - 1])
     && Newer(Run(now, steps[..|steps| - 1]), Writes(steps[..|steps| - 1]), steps[|steps| - 1]))
  }

  lemma EnabledBefore(now: int, steps: seq<Step>)
    requires AllEnabled(now, steps) && steps != []
    ensures AllEnabled(now, steps[..|steps| - 1])
    ensures Enabled(Run(now, steps[..|steps| - 1]), steps[|steps| - 1])
  {
    var before := steps[..|steps| - 1];
    forall i | 0 <= i < |before| ensures Enabled(Run(now, before[..i]), before[i]) {
      assert before[..i] == steps[..i];
    }
  }

  lemma CleanRestart(now: int, steps: seq<Step>, m: Mem)
    requires AllEnabled(now, steps) && Run(now, steps).m.dirty == {}
    requires Loaded(Run(now, steps).db, Run(now, steps).now, m, Target)
    ensures m.counts == Run(now, steps).m.counts
    ensures forall k :: Restored(Run(now, steps).m, m, Run(now, steps).now, k)
  {
    var s := Run(now, steps);
    CleanKeysSurvive(now, steps, s.now, m);
    SameAnswers(s.m, m, s.now);
  }

  // ---------------------------------------------------------------- numbers

  lemma NumberStep(s: State, step: Step, f: Family, key: string, node: string)
    requires Enabled(s, step) && ColonFree(key) && !step.Restart?
    ensures Partial(Next(s, step).m, f, key, node)
            == match step
               case Increment(k, n, delta) =>
                 Partial(s.m, f, key, node) + (if f == Counter && k == key && n == node then delta else 0)
               case TakeCount(k, n, val) =>
                 if f == Counter && k == key && n == node then Max(Partial(s.m, f, key, node), val)
                 else Partial(s.m, f, key, node)
               case Measure(k, n, delta) =>
                 Partial(s.m, f, key, node)
                 + (if k != key || n != node || f == Counter then 0 else if f == MetricCount then 1 else delta)
               case _ => Partial(s.m, f, key, node)
  {
    match step
    case Increment(k, n, delta) => AddsOnce(s.m, Counter, k, n, delta, f, key, node);
    case TakeCount(k, n, val) => TakesLarger(s.m, k, n, val, f, key, node);
    case Measure(k, n, delta) => MetricAdds(s.m, k, n, delta, f, key, node);
    case _ =>
  }

  /** Over every run in which a store is closed before it is opened again, each number of each
      node is exactly what the calls add up to: nothing is lost and nothing counted twice. */
  lemma {:induction false} NumbersAddUp(now: int, steps: seq<Step>, f: Family, key: string, node: string)
    requires AllEnabled(now, steps) && AllClean(now, steps) && ColonFree(key)
    ensures Partial(Run(now, steps).m, f, key, node) == Account(steps, f, key, node)
  {
    if steps != [] {
      var before, last := steps[..|steps| - 1], steps[|steps| - 1];
      EnabledBefore(now, steps);
      NumbersAddUp(now, before, f, key, node);
      if last.Restart? {
        CleanRestart(now, before, last.m);
      } else {
        NumberStep(Run(now, before), last, f, key, node);
      }
    }
  }

  // ---------------------------------------------------------------- registers

  /** The store holds what the writes leave, up to registers whose time is up. */
  ghost predicate HoldsAt(m: Mem, full: Cache, now: int, k: Key) {
    && (k in m.cache ==> k in full && full[k] == m.cache[k])
    && (k in full && k !in m.cache ==> Lapsed(full[k], now))
  }

  lemma WriteHolds(m: Mem, full: Cache, now: int, w: Write, k: Key)
    requires HoldsAt(m, full, now, k) && HoldsAt(m, full, now, w.key)
    requires w.key in full && w.key !in m.cache ==> After(w.ts, full[w.key].ts)
    ensures HoldsAt(Written(m, w), Apply(full, w), now, k)
  {
  }

  lemma RestartHolds(was: Mem, m: Mem, full: Cache, now: int, k: Key)
    requires HoldsAt(was, full, now, k) && Restored(was, m, now, k)
    ensures HoldsAt(m, full, now, k)
  {
  }

  lemma OtherStepHolds(s: State, step: Step, full: Cache, k: Key)
    requires HoldsAt(s.m, full, s.now, k) && !step.WriteRegister? && !step.Restart?
    ensures HoldsAt(Next(s, step).m, full, Next(s, step).now, k)
  {
  }

  lemma WritesGrow(steps: seq<Step>)
    requires steps != []
    ensures var last := steps[|steps| - 1];
            Replay(Writes(steps))
            == if last.WriteRegister? then Apply(Replay(Writes(steps[..|steps| - 1])), last.w)
               else Replay(Writes(steps[..|steps| - 1]))
  {
    var ws, last := Writes(steps[..|steps| - 1]), steps[|steps| - 1];
    if last.WriteRegister? {
      assert (ws + [last.w])[..|ws|] == ws;
    } else {
      assert ws + [] == ws;
    }
  }

  lemma {:induction false} RunHolds(now: int, steps: seq<Step>, k: Key)
    requires AllEnabled(now, steps) && AllClean(now, steps) && AllNewer(now, steps)
    ensures HoldsAt(Run(now, steps).m, Replay(Writes(steps)), Run(now, steps).now, k)
  {
    if steps != [] {
      var before, last := steps[..|steps| - 1], steps[|steps| - 1];
      var s, full := Run(now, before), Replay(Writes(before));
      EnabledBefore(now, steps);
      RunHolds(now, before, k);
      WritesGrow(steps);
      if last.Restart? {
        CleanRestart(now, before, last.m);
        assert Restored(s.m, last.m, s.now, k);
        RestartHolds(s.m, last.m, full, s.now, k);
      } else if last.WriteRegister? {
        RunHolds(now, before, last.w.key);
        WriteHolds(s.m, full, s.now, last.w, k);
      } else {
        OtherStepHolds(s, last, full, k);
      }
    }
  }

  /** A prune that visits every key leaves no register whose time is up, and every other one. */
  lemma PruneClears(s: State, k: Key)
    ensures var s' := Next(s, PruneKeys(s.m.cache.Keys));
            && (k in s'.m.cache <==> k in s.m.cache && !Expired(s.m.cache[k], s.now))
            && (k in s'.m.cache ==> s'.m.cache[k] == s.m.cache[k]) && s'.m.counts == s.m.counts
  {
    PruneActs(s.m, s.m.cache.Keys, s.now, k, s.now);
  }

  lemma HeldReads(m: Mem, full: Cache, now: int, k: Key, t: int)
    requires HoldsAt(m, full, now, k) && now < t
    ensures Get(m.cache, k, t) == Get(full, k, t)
  {
  }

  /** Over every such run, in which writes to a key that is gone are newer than what was there,
      every later read answers what the first newest write to the key asks, whatever was
      pruned, flushed, expired in the database or loaded again in between. */
  lemma ReadsAnswerWrites(now: int, steps: seq<Step>, k: Key, t: int) returns (i: nat)
    requires AllEnabled(now, steps) && AllClean(now, steps) && AllNewer(now, steps) && Latest(now, steps) < t
    ensures !Touches(Writes(steps), k) ==> Get(Run(now, steps).m.cache, k, t) == None
    ensures Touches(Writes(steps), k) ==>
              Reigns(Writes(steps), i, k) && Get(Run(now, steps).m.cache, k, t) == Asked(Writes(steps)[i], t)
  {
    TimePasses(now, steps);
    RunHolds(now, steps, k);
    HeldReads(Run(now, steps).m, Replay(Writes(steps)), Run(now, steps).now, k, t);
    i := ReplayReads(Writes(steps), k, t);
  }
}
