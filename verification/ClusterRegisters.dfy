/** What every run of the cluster keeps about registers: convergence, read-your-writes and
    the victory of causally later writes. */
module ClusterRegisters {
  import opened Wrappers
  import opened Clock
  import opened Registers
  import opened Cluster
  import C = Causality

  // ---------------------------------------------------------------- invariant

  /** The registers and calls of a replica whose clock shows c. */
  ghost predicate CallBounded(c: Timestamp, merged: seq<Write>, call: Call) {
    match call
    case Stamped(w, _, seen) =>
      && GreaterOrEqual(c, w.ts)
      && seen <= |merged|
      && (forall i :: 0 <= i < seen ==> After(w.ts, merged[i].ts))
    case Accepted(e) => GreaterOrEqual(c, e.Stamp())
    case _ => true
  }

  /** Every timestamp stored or in flight at a node is at most its clock. */
  ghost predicate Bounded(c: Timestamp, r: Replica) {
    && r.cache == Replay(r.merged)
    && (forall i :: 0 <= i < |r.merged| ==> GreaterOrEqual(c, r.merged[i].ts))
    && (forall id :: id in r.calls ==> CallBounded(c, r.merged, r.calls[id]))
  }

  ghost predicate AllBounded(s: State)
    requires WellFormed(s)
  {
    forall n :: 0 <= n < |s.replicas| ==> Bounded(s.clock.clocks[n], s.replicas[n])
  }

  /** A local write is newer than everything its node had merged when it was issued. */
  ghost predicate IssuedNewer(s: State) {
    forall i :: 0 <= i < |s.issued| ==>
      forall j :: 0 <= j < |s.issued[i].seen| ==> After(s.issued[i].w.ts, s.issued[i].seen[j].ts)
  }

  ghost predicate Inv(s: State) { Clocked(s) && AllBounded(s) && IssuedNewer(s) }

  // ---------------------------------------------------------------- preservation

  lemma MergeWriteBounded(c: Timestamp, r: Replica, w: Write)
    requires Bounded(c, r) && GreaterOrEqual(c, w.ts)
    ensures Bounded(c, MergeWrite(r, w))
  {
  }

  lemma BoundedLater(c: Timestamp, c': Timestamp, r: Replica)
    requires Bounded(c, r) && GreaterOrEqual(c', c)
    ensures Bounded(c', r)
  {
  }

  lemma NextClockAdvances(s: State, step: Step)
    requires Clocked(s) && Enabled(s, step) && Short(Next(s, step))
    ensures |NextClock(s, step).clocks| == |s.clock.clocks|
    ensures forall n :: 0 <= n < |s.clock.clocks| ==> GreaterOrEqual(NextClock(s, step).clocks[n], s.clock.clocks[n])
    ensures step.Begin? ==> After(NextClock(s, step).clocks[step.node], s.clock.clocks[step.node])
  {
    var a := ClockAction(s, step);
    if a.Some? {
      C.ClocksAdvance(s.clock, a.value);
    }
  }

  /** An accepted remote entry is behind the clock that accepted it. */
  lemma AcceptedBehind(s: State, step: Step)
    requires Clocked(s) && Enabled(s, step) && step.Receive? && Short(Next(s, step))
    ensures var e := s.replicas[step.from].log[step.index].entry;
            !ClockSmash(e.Stamp(), step.wall, s.clock.offsets[step.node]) ==>
              GreaterOrEqual(NextClock(s, step).clocks[step.node], e.Stamp())
  {
    assert ReplicaLinked(s.clock, s.replicas[step.from]);
    C.ClocksAdvance(s.clock, ClockAction(s, step).value);
  }

  lemma CommitBounded(c: Timestamp, r: Replica, id: nat)
    requires Bounded(c, r) && id in r.calls && r.calls[id].Stamped?
    ensures var call := r.calls[id]; Bounded(c, Enter(MergeWrite(r, call.w), id, Stored(call.w, call.event)))
  {
  }

  lemma MergeEntryBounded(c: Timestamp, r: Replica, id: nat)
    requires Bounded(c, r) && id in r.calls && r.calls[id].Accepted?
    ensures Bounded(c, MergeEntry(Leave(r, id), r.calls[id].entry))
  {
    assert CallBounded(c, r.merged, r.calls[id]);
    var e := r.calls[id].entry;
    assert Bounded(c, Leave(r, id));
    if e.RegisterEntry? {
      MergeWriteBounded(c, Leave(r, id), e.w);
    }
  }

  lemma NextReplicaBounded(s: State, step: Step)
    requires Inv(s) && Enabled(s, step) && Short(Next(s, step))
    ensures Bounded(NextClock(s, step).clocks[step.node], NextReplica(s, step))
  {
    var r := s.replicas[step.node];
    NextClockAdvances(s, step);
    var c := NextClock(s, step).clocks[step.node];
    BoundedLater(s.clock.clocks[step.node], c, r);
    match step
    case Commit(_, id) => CommitBounded(c, r, id);
    case Receive(_, _, _, _, _) => AcceptedBehind(s, step);
    case Merge(_, id) => MergeEntryBounded(c, r, id);
    case _ =>
  }

  lemma NextIssuedNewer(s: State, step: Step)
    requires Inv(s) && Enabled(s, step) && Short(Next(s, step))
    ensures IssuedNewer(Next(s, step))
  {
    NextClockAdvances(s, step);
    assert Bounded(s.clock.clocks[step.node], s.replicas[step.node]);
  }

  lemma NextKeepsInv(s: State, step: Step)
    requires Inv(s) && Short(Next(s, step))
    ensures Inv(Next(s, step))
  {
    NextClocked(s, step);
    if Enabled(s, step) {
      NextIssuedNewer(s, step);
      NextReplicaBounded(s, step);
      NextClockAdvances(s, step);
      forall n | 0 <= n < |s.replicas| && n != step.node
        ensures Bounded(NextClock(s, step).clocks[n], s.replicas[n])
      {
        BoundedLater(s.clock.clocks[n], NextClock(s, step).clocks[n], s.replicas[n]);
      }
    }
  }

  lemma {:induction false} RunKeepsInv(walls: seq<int>, offsets: seq<int>, steps: seq<Step>)
    requires |walls| == |offsets| && Short(Run(Initial(walls, offsets), steps))
    ensures Inv(Run(Initial(walls, offsets), steps))
  {
    if steps == [] {
      InitialClocked(walls, offsets);
    } else {
      var before := Run(Initial(walls, offsets), steps[..|steps| - 1]);
      EventsGrow(before, steps[|steps| - 1]);
      RunKeepsInv(walls, offsets, steps[..|steps| - 1]);
      NextKeepsInv(before, steps[|steps| - 1]);
    }
  }

  // ---------------------------------------------------------------- convergence

  /** The register entries a replica has applied, its own writes counted as the entries
      they put on the wire. */
  ghost function Applied(r: Replica): set<Write> {
    set w | w in r.merged :: Wire(w)
  }

  lemma {:induction false} AppliedStamps(r1: Replica, r2: Replica)
    requires Applied(r1) <= Applied(r2)
    ensures Stamps(r1.merged) <= Stamps(r2.merged)
  {
    forall x | x in Stamps(r1.merged) ensures x in Stamps(r2.merged) {
      var w :| w in r1.merged && (w.key, w.ts) == x;
      assert Wire(w) in Applied(r1);
      var w2 :| w2 in r2.merged && Wire(w2) == Wire(w);
      assert (w2.key, w2.ts) == x;
    }
  }

  /** The writes to k with the timestamp t are one operation with a TTL that survives the wire. */
  ghost predicate OneOperation(r1: Replica, r2: Replica, k: Key, t: Timestamp) {
    var both := r1.merged + r2.merged;
    forall w :: w in both && w.key == k && w.ts == t ==>
      && WholeMilliseconds(w)
      && (forall w' :: w' in both && w'.key == k && w'.ts == t ==> Wire(w) == Wire(w'))
  }

  lemma WinnerIsMerged(r: Replica, k: Key) returns (w: Write)
    requires r.cache == Replay(r.merged) && k in r.cache
    ensures w in r.merged && w.key == k && r.cache[k] == Outcome(w) && w.ts == r.cache[k].ts
    ensures forall i :: 0 <= i < |r.merged| && r.merged[i].key == k ==> GreaterOrEqual(w.ts, r.merged[i].ts)
  {
    var i := ReplayKeepsAWinner(r.merged, k);
    w := r.merged[i];
  }

  /** Strong eventual consistency of registers. Over every run, two nodes that have applied
      the same entries, in any orders and with any duplicates, hold the same keys with the
      same timestamps, ties included; and the same registers wherever the winning
      timestamp belongs to one operation. */
  lemma RegistersConverge(walls: seq<int>, offsets: seq<int>, steps: seq<Step>, m: NodeId, n: NodeId)
    requires |walls| == |offsets| && m < |walls| && n < |walls|
    requires Short(Run(Initial(walls, offsets), steps))
    ensures var s := Run(Initial(walls, offsets), steps); |s.replicas| == |walls|
    ensures var s := Run(Initial(walls, offsets), steps);
            var r1, r2 := s.replicas[m], s.replicas[n];
            Applied(r1) == Applied(r2) ==>
              && r1.cache.Keys == r2.cache.Keys
              && (forall k :: k in r1.cache ==> r1.cache[k].ts == r2.cache[k].ts)
              && (forall k :: k in r1.cache && OneOperation(r1, r2, k, r1.cache[k].ts) ==>
                    r1.cache[k] == r2.cache[k])
  {
    RunKeepsInv(walls, offsets, steps);
    RunSize(walls, offsets, steps);
    var s := Run(Initial(walls, offsets), steps);
    var r1, r2 := s.replicas[m], s.replicas[n];
    assert Bounded(s.clock.clocks[m], r1) && Bounded(s.clock.clocks[n], r2);
    if Applied(r1) == Applied(r2) {
      AppliedStamps(r1, r2);
      AppliedStamps(r2, r1);
      TimestampsConverge(r1.merged, r2.merged);
      forall k | k in r1.cache && OneOperation(r1, r2, k, r1.cache[k].ts) ensures r1.cache[k] == r2.cache[k] {
        var w1 := WinnerIsMerged(r1, k);
        var w2 := WinnerIsMerged(r2, k);
        assert w1 in r1.merged + r2.merged && w2 in r1.merged + r2.merged;
        WireOutcome(w1);
        WireOutcome(w2);
      }
    }
  }

  lemma {:induction false} RunSize(walls: seq<int>, offsets: seq<int>, steps: seq<Step>)
    requires |walls| == |offsets|
    ensures |Run(Initial(walls, offsets), steps).replicas| == |walls|
  {
    if steps != [] {
      RunSize(walls, offsets, steps[..|steps| - 1]);
    }
  }

  // ---------------------------------------------------------------- read your writes

  /** Read your writes. Over every run, a local Set or Delete that is about to reach the
      store is ignored exactly when, since it took its timestamp, its node merged a write
      to the same key that is at least as new. Left alone, it is always stored. */
  lemma ReadYourWrites(walls: seq<int>, offsets: seq<int>, steps: seq<Step>, n: NodeId, id: nat)
    requires |walls| == |offsets| && Short(Run(Initial(walls, offsets), steps))
    requires Enabled(Run(Initial(walls, offsets), steps), Commit(n, id))
    ensures var s := Run(Initial(walls, offsets), steps);
            var r, call := s.replicas[n], s.replicas[n].calls[id];
            var after := Next(s, Commit(n, id)).replicas[n].cache;
            && GreaterOrEqual(s.clock.clocks[n], call.w.ts)
            && call.seen <= |r.merged|
            && call.w.key in after
            && GreaterOrEqual(after[call.w.key].ts, call.w.ts)
            && (Ignored(r.cache, call.w) <==>
                  exists i :: call.seen <= i < |r.merged|
                    && r.merged[i].key == call.w.key && GreaterOrEqual(r.merged[i].ts, call.w.ts))
            && (!Ignored(r.cache, call.w) ==> after[call.w.key] == Outcome(call.w))
  {
    RunKeepsInv(walls, offsets, steps);
    var s := Run(Initial(walls, offsets), steps);
    var r := s.replicas[n];
    var call := r.calls[id];
    assert Bounded(s.clock.clocks[n], r);
    assert CallBounded(s.clock.clocks[n], r.merged, call);
    var i := ReplayKeepsAWinner(r.merged, call.w.key);
  }

  /** A stored write is never displaced by an older one: afterwards the key holds it, a
      strictly newer write, or another write with the same timestamp. */
  lemma WritesStay(walls: seq<int>, offsets: seq<int>, steps: seq<Step>, n: NodeId, i: nat)
    requires |walls| == |offsets| && Short(Run(Initial(walls, offsets), steps))
    requires var s := Run(Initial(walls, offsets), steps);
             n < |s.replicas| && i < |s.replicas[n].merged|
    ensures var r := Run(Initial(walls, offsets), steps).replicas[n];
            var w := r.merged[i];
            && w.key in r.cache
            && (|| r.cache[w.key] == Outcome(w)
                || After(r.cache[w.key].ts, w.ts)
                || exists j :: 0 <= j < |r.merged| && j != i && r.merged[j].key == w.key
                                 && r.merged[j].ts == w.ts && r.cache[w.key] == Outcome(r.merged[j]))
  {
    RunKeepsInv(walls, offsets, steps);
    var s := Run(Initial(walls, offsets), steps);
    assert Bounded(s.clock.clocks[n], s.replicas[n]);
    var j := ReplayKeepsAWinner(s.replicas[n].merged, s.replicas[n].merged[i].key);
  }

  const MINE := Put("k", "mine", Timestamp(10, 1), 0)
  const THEIRS := Put("k", "theirs", Timestamp(10, 1), 0)

  /** Two nodes stamp the same key alike, and the second publishes its write. */
  function TieSetup(): State {
    var stamped := Next(Next(Initial([10, 10], [0, 0]), Begin(0, 0, Set("k", "mine", 0), 10)),
                        Begin(1, 0, Set("k", "theirs", 0), 10));
    Next(Next(stamped, Commit(1, 0)), Publish(1, 0))
  }

  lemma TieSetupFacts()
    ensures var s := TieSetup();
            && WellFormed(s) && |s.replicas| == 2
            && s.replicas[0] == Replica(map[], map[], map[], map[0 := Stamped(MINE, 0, 0)], [], [], {})
            && s.replicas[1].log == [Logged(RegisterEntry(THEIRS), 1)]
            && s.clock.offsets == [0, 0]
            && s.clock.events == [C.Event(0, MINE.ts, None), C.Event(1, THEIRS.ts, None)]
  {
    var s1 := Next(Initial([10, 10], [0, 0]), Begin(0, 0, Set("k", "mine", 0), 10));
    assert s1.replicas[0].calls == map[0 := Stamped(MINE, 0, 0)];
    var s2 := Next(s1, Begin(1, 0, Set("k", "theirs", 0), 10));
    assert s2.replicas[1].calls == map[0 := Stamped(THEIRS, 1, 0)];
  }

  /** A remote write with the same timestamp is merged between the stamping of a local write
      and its commit: the local write is ignored. */
  lemma TieIgnored(s: State, mine: Call, theirs: Write)
    requires WellFormed(s) && |s.replicas| == 2 && s.replicas[0].cache == map[]
    requires mine.Stamped? && mine.w.key == theirs.key && mine.w.ts == theirs.ts
    requires s.replicas[0].calls == map[0 := mine, 1 := Accepted(RegisterEntry(theirs))]
    ensures var s' := Next(s, Step.Merge(0, 1));
            && Enabled(s', Commit(0, 0)) && s'.replicas[0].calls[0] == mine
            && Lookup(Next(s', Commit(0, 0)).replicas[0].cache, theirs.key) == Some(Outcome(theirs))
  {
    var s' := Next(s, Step.Merge(0, 1));
    assert s'.replicas[0].calls == map[0 := mine];
    assert s'.replicas[0].cache == map[theirs.key := Outcome(theirs)];
  }

  /** Timestamps carry no node id, so a tie can hide a local write: once the remote write
      with the same timestamp is merged, the local one is ignored when it is committed. */
  lemma TieHidesLocalWrite()
    ensures var s := Next(Next(TieSetup(), Receive(0, 1, 1, 0, 10)), Step.Merge(0, 1));
            && Enabled(s, Commit(0, 0)) && s.replicas[0].calls[0] == Stamped(MINE, 0, 0)
            && Lookup(Next(s, Commit(0, 0)).replicas[0].cache, "k") == Some(Outcome(THEIRS))
  {
    TieSetupFacts();
    ReceiveAccepts(TieSetup(), Stamped(MINE, 0, 0), THEIRS);
    TieIgnored(Next(TieSetup(), Receive(0, 1, 1, 0, 10)), Stamped(MINE, 0, 0), THEIRS);
  }

  lemma ReceiveAccepts(s: State, mine: Call, theirs: Write)
    requires WellFormed(s) && |s.replicas| == 2 && s.clock.offsets == [0, 0] && theirs.ts.physical == 10
    requires s.replicas[0].calls == map[0 := mine] && s.replicas[1].log == [Logged(RegisterEntry(theirs), 1)]
    requires |s.clock.events| == 2 && s.clock.events[1] == C.Event(1, theirs.ts, None)
    ensures var s' := Next(s, Receive(0, 1, 1, 0, 10));
            && WellFormed(s') && |s'.replicas| == 2 && s'.replicas[0].cache == s.replicas[0].cache
            && s'.replicas[0].calls == map[0 := mine, 1 := Accepted(RegisterEntry(theirs))]
  {
    var s' := Next(s, Receive(0, 1, 1, 0, 10));
    assert s'.replicas[0].calls == s.replicas[0].calls[1 := Accepted(RegisterEntry(theirs))];
  }

  // ---------------------------------------------------------------- causal writes win

  /** Over every run, a write issued by a node that had merged another write to the same
      key wins over it at every node, in every delivery order. */
  lemma CausalWriteWins(walls: seq<int>, offsets: seq<int>, steps: seq<Step>,
                        i: nat, j: nat, n: NodeId)
    requires |walls| == |offsets| && Short(Run(Initial(walls, offsets), steps))
    requires var s := Run(Initial(walls, offsets), steps);
             i < |s.issued| && j < |s.issued[i].seen| && n < |s.replicas|
    ensures var s := Run(Initial(walls, offsets), steps);
            var later, earlier := s.issued[i].w, s.issued[i].seen[j];
            After(later.ts, earlier.ts)
    ensures var s := Run(Initial(walls, offsets), steps);
            var later, earlier, cache := s.issued[i].w, s.issued[i].seen[j], s.replicas[n].cache;
            later.key == earlier.key && Wire(later) in Applied(s.replicas[n]) ==>
              later.key in cache && GreaterOrEqual(cache[later.key].ts, later.ts)
              && After(cache[later.key].ts, earlier.ts)
  {
    RunKeepsInv(walls, offsets, steps);
    var s := Run(Initial(walls, offsets), steps);
    var r := s.replicas[n];
    var later := s.issued[i].w;
    assert Bounded(s.clock.clocks[n], r);
    if Wire(later) in Applied(r) {
      var w :| w in r.merged && Wire(w) == Wire(later);
      var at :| 0 <= at < |r.merged| && r.merged[at] == w;
      var k := ReplayKeepsAWinner(r.merged, later.key);
    }
  }
}
