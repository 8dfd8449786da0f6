/** What every run of the cluster keeps about the distributed counters. `IncrementBy` is
    three steps that any number of concurrent calls interleave: increment the store, read
    the node's partial count back, append it to the log. */
module ClusterCounters {
  import opened Wrappers
  import opened Clock
  import opened Registers
  import opened Cluster

  // ---------------------------------------------------------------- aggregates

  /** The sum of the partial counts of nodes 0 .. n-1. */
  ghost function SumPartials(r: Replica, k: Key, n: nat): int {
    if n == 0 then 0 else SumPartials(r, k, n - 1) + Partial(r, k, n - 1)
  }

  ghost predicate Summed(r: Replica, nodes: nat) {
    forall k :: Aggregate(r, k) == SumPartials(r, k, nodes)
  }

  /** Count entries in flight and in logs name nodes of the cluster. */
  ghost predicate EntryNamed(e: Entry, nodes: nat) { e.CountEntry? ==> e.node < nodes }

  ghost predicate Named(r: Replica, nodes: nat) {
    && (forall i :: 0 <= i < |r.log| ==> EntryNamed(r.log[i].entry, nodes))
    && (forall id :: id in r.calls && (r.calls[id].Ready? || r.calls[id].Accepted?) ==>
          EntryNamed(r.calls[id].entry, nodes))
  }

  ghost predicate SumInv(s: State) {
    WellFormed(s) && forall n :: 0 <= n < |s.replicas| ==>
      Summed(s.replicas[n], |s.replicas|) && Named(s.replicas[n], |s.replicas|)
  }

  lemma {:induction false} AddCountSums(r: Replica, k: Key, n: NodeId, delta: int, key: Key, nodes: nat)
    ensures SumPartials(AddCount(r, k, n, delta), key, nodes)
            == SumPartials(r, key, nodes) + if key == k && n < nodes then delta else 0
  {
    if nodes > 0 {
      AddCountSums(r, k, n, delta, key, nodes - 1);
    }
  }

  lemma AddCountSummed(r: Replica, k: Key, n: NodeId, delta: int, nodes: nat)
    requires Summed(r, nodes) && n < nodes
    ensures Summed(AddCount(r, k, n, delta), nodes)
  {
    forall key ensures Aggregate(AddCount(r, k, n, delta), key) == SumPartials(AddCount(r, k, n, delta), key, nodes) {
      AddCountSums(r, k, n, delta, key, nodes);
    }
  }

  lemma {:induction false} SameCountsSameSum(r: Replica, r': Replica, k: Key, n: nat)
    requires forall m: nat :: m < n ==> Partial(r, k, m) == Partial(r', k, m)
    ensures SumPartials(r, k, n) == SumPartials(r', k, n)
  {
    if n > 0 {
      SameCountsSameSum(r, r', k, n - 1);
    }
  }

  lemma SameCountsSummed(r: Replica, r': Replica, nodes: nat)
    requires Summed(r, nodes) && r.counts == r'.counts && r.aggregates == r'.aggregates
    ensures Summed(r', nodes)
  {
    forall k ensures Aggregate(r', k) == SumPartials(r', k, nodes) {
      SameCountsSameSum(r, r', k, nodes);
    }
  }

  lemma NextSummed(s: State, step: Step)
    requires SumInv(s) && Enabled(s, step)
    ensures Summed(NextReplica(s, step), |s.replicas|)
  {
    var nodes := |s.replicas|;
    var r := s.replicas[step.node];
    var r' := NextReplica(s, step);
    if step.Count? {
      AddCountSummed(r, step.key, step.node, step.delta, nodes);
      SameCountsSummed(AddCount(r, step.key, step.node, step.delta), r', nodes);
    } else if step.Merge? && r.calls[step.id].entry.CountEntry? {
      var e := r.calls[step.id].entry;
      SameCountsSummed(r, Leave(r, step.id), nodes);
      AddCountSummed(Leave(r, step.id), e.key, e.node, e.total - Partial(r, e.key, e.node), nodes);
      SameCountsSummed(RaiseCount(Leave(r, step.id), e.key, e.node, e.total), r', nodes);
    } else {
      SameCountsSummed(r, r', nodes);
    }
  }

  lemma NextNamed(s: State, step: Step)
    requires SumInv(s) && Enabled(s, step)
    ensures Named(NextReplica(s, step), |s.replicas|)
  {
  }

  /** Over every run, with any deltas, each cached aggregate is the sum of the partials. */
  lemma {:induction false} AggregateIsSum(walls: seq<int>, offsets: seq<int>, steps: seq<Step>)
    requires |walls| == |offsets|
    ensures SumInv(Run(Initial(walls, offsets), steps))
  {
    var s0 := Initial(walls, offsets);
    if steps == [] {
      forall n, k | 0 <= n < |walls| ensures SumPartials(s0.replicas[n], k, |walls|) == 0 {
        EmptySum(s0.replicas[n], k, |walls|);
      }
    } else {
      AggregateIsSum(walls, offsets, steps[..|steps| - 1]);
      var s := Run(s0, steps[..|steps| - 1]);
      if Enabled(s, steps[|steps| - 1]) {
        NextSummed(s, steps[|steps| - 1]);
        NextNamed(s, steps[|steps| - 1]);
      }
    }
  }

  lemma {:induction false} EmptySum(r: Replica, k: Key, n: nat)
    requires r.counts == map[]
    ensures SumPartials(r, k, n) == 0
  {
    if n > 0 {
      EmptySum(r, k, n - 1);
    }
  }

  // ---------------------------------------------------------------- nothing is lost

  /** A count entry never overtakes the owner's live partial. */
  ghost predicate Behind(s: State, e: Entry) {
    e.CountEntry? ==> e.node < |s.replicas| && e.total <= Partial(s.replicas[e.node], e.key, e.node)
  }

  ghost predicate CallBehind(s: State, n: NodeId, c: Call)
    requires n < |s.replicas|
  {
    && (c.Ready? || c.Accepted? ==> Behind(s, c.entry))
    && (c.Ready? && c.entry.CountEntry? ==> c.entry.node == n)
    && (c.ReadBack? ==> c.total <= Partial(s.replicas[n], c.key, n))
  }

  /** No copy, log entry or entry in flight exceeds the owner's partial. */
  ghost predicate ReplicaBehind(s: State, n: NodeId)
    requires n < |s.replicas|
  {
    var r := s.replicas[n];
    && (forall k, m: nat :: m < |s.replicas| ==> 0 <= Partial(r, k, m) <= Partial(s.replicas[m], k, m))
    && (forall i :: 0 <= i < |r.log| ==> Behind(s, r.log[i].entry))
    && (forall i :: 0 <= i < |r.log| && r.log[i].entry.CountEntry? ==> r.log[i].entry.node == n)
    && (forall e :: e in r.received ==> Behind(s, e))
    && (forall id :: id in r.calls ==> CallBehind(s, n, r.calls[id]))
  }

  ghost predicate AllBehind(s: State) {
    forall n: nat :: n < |s.replicas| ==> ReplicaBehind(s, n)
  }

  /** The call c will still log the partial count v of key k, or is yet to read it. */
  ghost predicate WillLog(c: Call, k: Key, v: int) {
    || c == Counted(k)
    || c == ReadBack(k, v)
    || (c.Ready? && c.entry.CountEntry? && c.entry.key == k && c.entry.total == v)
  }

  ghost predicate HasLogged(r: Replica, k: Key, v: int) {
    exists i :: 0 <= i < |r.log| && r.log[i].entry.CountEntry? && r.log[i].entry.key == k && r.log[i].entry.total == v
  }

  /** The live partial is zero, in the log, or about to be logged by a call in flight. */
  ghost predicate KeyAccounted(r: Replica, n: NodeId, k: Key) {
    var v := Partial(r, k, n);
    v == 0 || HasLogged(r, k, v) || exists id :: id in r.calls && WillLog(r.calls[id], k, v)
  }

  ghost predicate Accounted(r: Replica, n: NodeId) {
    forall k :: KeyAccounted(r, n, k)
  }

  ghost predicate AllAccounted(s: State) {
    forall n: nat :: n < |s.replicas| ==> Accounted(s.replicas[n], n)
  }

  /** The largest total that entries of node m carry for key k; 0 when there is none. */
  ghost predicate IsLargest(entries: set<Entry>, k: Key, m: NodeId, v: int) {
    && v >= 0
    && (forall e :: e in entries && e.CountEntry? && e.key == k && e.node == m ==> e.total <= v)
    && (v == 0 || exists e :: e in entries && e.CountEntry? && e.key == k && e.node == m && e.total == v)
  }

  /** A copy of another node's partial is the largest total received for it, or zero. */
  ghost predicate Copied(r: Replica, n: NodeId) {
    forall k, m: nat :: m != n ==> IsLargest(r.received, k, m, Partial(r, k, m))
  }

  ghost predicate AllCopied(s: State) {
    forall n: nat :: n < |s.replicas| ==> Copied(s.replicas[n], n)
  }

  ghost predicate Inv(s: State) {
    WellFormed(s) && AllBehind(s) && AllAccounted(s) && AllCopied(s)
  }

  /** Increments are not negative. */
  predicate Grows(step: Step) { step.Count? ==> step.delta >= 0 }

  // ---------------------------------------------------------------- preservation

  /** A step never lowers the owner's partial, and only the owner raises it. */
  lemma OwnerGrows(s: State, step: Step, k: Key, m: NodeId)
    requires AllBehind(s) && Enabled(s, step) && Grows(step) && m < |s.replicas|
    ensures Partial(s.replicas[m], k, m) <= Partial(Next(s, step).replicas[m], k, m)
  {
  }

  lemma BehindPersists(s: State, step: Step, e: Entry)
    requires AllBehind(s) && Enabled(s, step) && Grows(step) && Behind(s, e)
    ensures Behind(Next(s, step), e)
  {
  }

  lemma OldCallBehind(s: State, step: Step, n: NodeId, c: Call)
    requires AllBehind(s) && Enabled(s, step) && Grows(step) && n < |s.replicas| && CallBehind(s, n, c)
    ensures CallBehind(Next(s, step), n, c)
  {
    if c.Ready? || c.Accepted? {
      BehindPersists(s, step, c.entry);
    } else if c.ReadBack? {
      OwnerGrows(s, step, c.key, n);
    }
  }

  lemma NextCopiesBehind(s: State, step: Step, n: NodeId, k: Key, m: NodeId)
    requires AllBehind(s) && Enabled(s, step) && Grows(step) && n < |s.replicas| && m < |s.replicas|
    ensures var s' := Next(s, step);
            0 <= Partial(s'.replicas[n], k, m) <= Partial(s'.replicas[m], k, m)
  {
    assert ReplicaBehind(s, n);
    OwnerGrows(s, step, k, m);
    assert 0 <= Partial(s.replicas[n], k, m) <= Partial(s.replicas[m], k, m);
    if n == step.node && step.Merge? {
      assert CallBehind(s, n, s.replicas[n].calls[step.id]);
    }
  }

  lemma NextCallsBehind(s: State, step: Step, n: NodeId, id: nat)
    requires AllBehind(s) && Enabled(s, step) && Grows(step)
    requires n < |s.replicas| && id in Next(s, step).replicas[n].calls
    ensures CallBehind(Next(s, step), n, Next(s, step).replicas[n].calls[id])
  {
    assert ReplicaBehind(s, n);
    if n == step.node && id == step.id {
      if step.StampCount? {
        assert CallBehind(s, n, s.replicas[n].calls[id]);
      } else if step.Receive? {
        assert ReplicaBehind(s, step.from);
        BehindPersists(s, step, s.replicas[step.from].log[step.index].entry);
      }
    } else {
      OldCallBehind(s, step, n, s.replicas[n].calls[id]);
    }
  }

  lemma NextLogBehind(s: State, step: Step, n: NodeId, i: nat)
    requires AllBehind(s) && Enabled(s, step) && Grows(step)
    requires n < |s.replicas| && i < |Next(s, step).replicas[n].log|
    ensures var e := Next(s, step).replicas[n].log[i].entry;
            Behind(Next(s, step), e) && (e.CountEntry? ==> e.node == n)
  {
    assert ReplicaBehind(s, n);
    if i < |s.replicas[n].log| {
      BehindPersists(s, step, s.replicas[n].log[i].entry);
    } else {
      var c := s.replicas[n].calls[step.id];
      assert CallBehind(s, n, c);
      if c.Ready? {
        BehindPersists(s, step, c.entry);
      }
    }
  }

  lemma NextReceivedBehind(s: State, step: Step, n: NodeId, e: Entry)
    requires AllBehind(s) && Enabled(s, step) && Grows(step)
    requires n < |s.replicas| && e in Next(s, step).replicas[n].received
    ensures Behind(Next(s, step), e)
  {
    assert ReplicaBehind(s, n);
    if e !in s.replicas[n].received {
      assert CallBehind(s, n, s.replicas[n].calls[step.id]);
    }
    BehindPersists(s, step, e);
  }

  lemma NextBehind(s: State, step: Step)
    requires AllBehind(s) && Enabled(s, step) && Grows(step)
    ensures AllBehind(Next(s, step))
  {
    forall n: nat | n < |s.replicas| ensures ReplicaBehind(Next(s, step), n) {
      var s' := Next(s, step);
      forall k, m: nat | m < |s'.replicas|
        ensures 0 <= Partial(s'.replicas[n], k, m) <= Partial(s'.replicas[m], k, m)
      {
        NextCopiesBehind(s, step, n, k, m);
      }
      forall e | e in s'.replicas[n].received ensures Behind(s', e) {
        NextReceivedBehind(s, step, n, e);
      }
      forall id | id in s'.replicas[n].calls ensures CallBehind(s', n, s'.replicas[n].calls[id]) {
        NextCallsBehind(s, step, n, id);
      }
      forall i | 0 <= i < |s'.replicas[n].log|
        ensures Behind(s', s'.replicas[n].log[i].entry)
        ensures s'.replicas[n].log[i].entry.CountEntry? ==> s'.replicas[n].log[i].entry.node == n
      {
        NextLogBehind(s, step, n, i);
      }
    }
  }

  lemma LogGrows(r: Replica, e: Entry, event: nat, k: Key, v: int)
    ensures HasLogged(r, k, v) ==> HasLogged(Append(r, e, event), k, v)
    ensures e.CountEntry? ==> HasLogged(Append(r, e, event), e.key, e.total)
  {
    var r' := Append(r, e, event);
    assert r'.log[|r.log|].entry == e;
    if HasLogged(r, k, v) {
      var i :| 0 <= i < |r.log| && r.log[i].entry.CountEntry? && r.log[i].entry.key == k && r.log[i].entry.total == v;
      assert r'.log[i] == r.log[i];
    }
  }

  /** A merge does not raise the node's own partial. */
  ghost predicate Harmless(s: State, step: Step)
    requires Enabled(s, step)
  {
    step.Merge? ==>
      var r, n := s.replicas[step.node], step.node;
      var e := r.calls[step.id].entry;
      e.CountEntry? && e.node == n ==> e.total <= Partial(r, e.key, n)
  }

  lemma BehindIsHarmless(s: State, step: Step)
    requires AllBehind(s) && Enabled(s, step)
    ensures Harmless(s, step)
  {
    assert ReplicaBehind(s, step.node);
    if step.Merge? {
      assert CallBehind(s, step.node, s.replicas[step.node].calls[step.id]);
    }
  }

  /** The call that a key relies on passes its duty on when it takes a step. */
  lemma NextKeyAccounted(s: State, step: Step, k: Key)
    requires Enabled(s, step) && Harmless(s, step) && KeyAccounted(s.replicas[step.node], step.node, k)
    ensures KeyAccounted(NextReplica(s, step), step.node, k)
  {
    var n := step.node;
    var r, r' := s.replicas[n], NextReplica(s, step);
    var v := Partial(r, k, n);
    if step.Count? && step.key == k {
      assert WillLog(r'.calls[step.id], k, Partial(r', k, n));
    } else {
      assert Partial(r', k, n) == v;
      if step.Publish? {
        var c := r.calls[step.id];
        LogGrows(Leave(r, step.id), if c.Stored? then RegisterEntry(Wire(c.w)) else c.entry, c.event, k, v);
      }
      if v != 0 && !HasLogged(r, k, v) {
        var id :| id in r.calls && WillLog(r.calls[id], k, v);
        if id != step.id || step.ReadCount? || step.StampCount? {
          assert WillLog(r'.calls[id], k, v);
        }
      }
    }
  }

  lemma NextAccounted(s: State, step: Step)
    requires AllAccounted(s) && Enabled(s, step) && Harmless(s, step)
    ensures AllAccounted(Next(s, step))
  {
    var n := step.node;
    forall k ensures KeyAccounted(NextReplica(s, step), n, k) {
      assert Accounted(s.replicas[n], n);
      NextKeyAccounted(s, step, k);
    }
  }

  lemma MergeCopies(r: Replica, n: NodeId, e: Entry, k: Key, m: NodeId)
    requires Copied(r, n) && e.CountEntry? && m != n
    ensures IsLargest(MergeEntry(r, e).received, k, m, Partial(MergeEntry(r, e), k, m))
  {
    var r' := MergeEntry(r, e);
    assert IsLargest(r.received, k, m, Partial(r, k, m));
    assert e in r'.received;
    if Partial(r', k, m) != 0 && Partial(r', k, m) == Partial(r, k, m) {
      var e' :| e' in r.received && e'.CountEntry? && e'.key == k && e'.node == m && e'.total == Partial(r, k, m);
      assert e' in r'.received;
    }
  }

  lemma SameCopies(r: Replica, r': Replica, n: NodeId)
    requires Copied(r, n) && r'.received == r.received
    requires forall k, m: nat :: m != n ==> Partial(r', k, m) == Partial(r, k, m)
    ensures Copied(r', n)
  {
  }

  lemma NextCopied(s: State, step: Step)
    requires AllCopied(s) && Enabled(s, step)
    ensures AllCopied(Next(s, step))
  {
    var n := step.node;
    var r, r' := s.replicas[n], NextReplica(s, step);
    assert Copied(r, n);
    if step.Merge? && r.calls[step.id].entry.CountEntry? {
      SameCopies(r, Leave(r, step.id), n);
      forall k, m: nat | m != n ensures IsLargest(r'.received, k, m, Partial(r', k, m)) {
        MergeCopies(Leave(r, step.id), n, r.calls[step.id].entry, k, m);
      }
    } else {
      SameCopies(r, r', n);
    }
  }

  lemma {:induction false} RunKeepsInv(walls: seq<int>, offsets: seq<int>, steps: seq<Step>)
    requires |walls| == |offsets|
    requires forall i :: 0 <= i < |steps| ==> Grows(steps[i])
    ensures var s := Run(Initial(walls, offsets), steps);
            Inv(s) && |s.replicas| == |walls|
  {
    if steps != [] {
      var s := Run(Initial(walls, offsets), steps[..|steps| - 1]);
      var step := steps[|steps| - 1];
      RunKeepsInv(walls, offsets, steps[..|steps| - 1]);
      if Enabled(s, step) {
        NextBehind(s, step);
        BehindIsHarmless(s, step);
        NextAccounted(s, step);
        NextCopied(s, step);
      }
    }
  }

  // ---------------------------------------------------------------- theorems

  /** No increment is in flight. */
  ghost predicate Quiet(r: Replica) {
    forall id :: id in r.calls ==>
      var c := r.calls[id]; !c.Counted? && !c.ReadBack? && (c.Ready? ==> !c.entry.CountEntry?)
  }

  /** The count entries in a replica's own log. */
  ghost function OwnEntries(r: Replica): set<Entry> {
    set l | l in r.log && l.entry.CountEntry? :: l.entry
  }

  lemma OwnPartialIsLargest(s: State, n: NodeId, k: Key)
    requires Inv(s) && n < |s.replicas| && Quiet(s.replicas[n])
    ensures IsLargest(OwnEntries(s.replicas[n]), k, n, Partial(s.replicas[n], k, n))
  {
    var r := s.replicas[n];
    var v := Partial(r, k, n);
    assert ReplicaBehind(s, n) && Accounted(r, n);
    if v != 0 {
      assert KeyAccounted(r, n, k);
      var i :| 0 <= i < |r.log| && r.log[i].entry.CountEntry? && r.log[i].entry.key == k && r.log[i].entry.total == v;
      assert r.log[i] in r.log;
      assert r.log[i].entry in OwnEntries(r);
    }
  }

  /** Concurrent increments lose nothing: over every run, no logged total exceeds the
      node's live partial, and when no call is in flight the largest one equals it. */
  lemma LogReachesPartial(walls: seq<int>, offsets: seq<int>, steps: seq<Step>, n: NodeId, k: Key)
    requires |walls| == |offsets| && n < |walls|
    requires forall i :: 0 <= i < |steps| ==> Grows(steps[i])
    ensures var s := Run(Initial(walls, offsets), steps);
            |s.replicas| == |walls| &&
            var r := s.replicas[n];
            && (forall e :: e in OwnEntries(r) && e.key == k ==> e.node == n && e.total <= Partial(r, k, n))
            && (Quiet(r) ==> IsLargest(OwnEntries(r), k, n, Partial(r, k, n)))
  {
    RunKeepsInv(walls, offsets, steps);
    var s := Run(Initial(walls, offsets), steps);
    assert ReplicaBehind(s, n);
    if Quiet(s.replicas[n]) {
      OwnPartialIsLargest(s, n, k);
    }
  }

  /** The count entries a replica has applied: those it received and those it made. */
  ghost function Applied(r: Replica): set<Entry> { r.received + OwnEntries(r) }

  /** Every partial of a quiet replica is the largest total applied for it. */
  lemma PartialIsLargest(s: State, n: NodeId, k: Key, m: NodeId)
    requires Inv(s) && n < |s.replicas| && m < |s.replicas| && Quiet(s.replicas[n])
    ensures var r := s.replicas[n]; IsLargest(Applied(r), k, m, Partial(r, k, m))
  {
    var r := s.replicas[n];
    assert ReplicaBehind(s, n);
    if m != n {
      assert IsLargest(r.received, k, m, Partial(r, k, m));
    } else {
      OwnPartialIsLargest(s, n, k);
    }
  }

  /** Strong eventual consistency of counters. Over every run, two nodes with no increment
      in flight that have applied the same count entries, in any orders and with any
      duplicates, hold the same partials and the same aggregates. */
  lemma CountersConverge(walls: seq<int>, offsets: seq<int>, steps: seq<Step>, n1: NodeId, n2: NodeId, k: Key)
    requires |walls| == |offsets| && n1 < |walls| && n2 < |walls|
    requires forall i :: 0 <= i < |steps| ==> Grows(steps[i])
    ensures var s := Run(Initial(walls, offsets), steps);
            |s.replicas| == |walls| &&
            var r1, r2 := s.replicas[n1], s.replicas[n2];
            Quiet(r1) && Quiet(r2) && Applied(r1) == Applied(r2) ==>
              && (forall m: nat :: m < |walls| ==> Partial(r1, k, m) == Partial(r2, k, m))
              && Aggregate(r1, k) == Aggregate(r2, k)
  {
    RunKeepsInv(walls, offsets, steps);
    AggregateIsSum(walls, offsets, steps);
    var s := Run(Initial(walls, offsets), steps);
    var r1, r2 := s.replicas[n1], s.replicas[n2];
    if Quiet(r1) && Quiet(r2) && Applied(r1) == Applied(r2) {
      forall m: nat | m < |walls| ensures Partial(r1, k, m) == Partial(r2, k, m) {
        PartialIsLargest(s, n1, k, m);
        PartialIsLargest(s, n2, k, m);
      }
      SameCountsSameSum(r1, r2, k, |walls|);
    }
  }

  /** A peer that has applied the whole log of a quiet owner holds exactly its partial. */
  lemma PeerReachesOwner(s: State, n: NodeId, m: NodeId, k: Key)
    requires Inv(s) && n < |s.replicas| && m < |s.replicas|
    requires Quiet(s.replicas[m]) && OwnEntries(s.replicas[m]) <= Applied(s.replicas[n])
    ensures Partial(s.replicas[n], k, m) == Partial(s.replicas[m], k, m)
  {
    if n != m {
      assert ReplicaBehind(s, n) && ReplicaBehind(s, m);
      OwnPartialIsLargest(s, m, k);
      assert IsLargest(s.replicas[n].received, k, m, Partial(s.replicas[n], k, m));
    }
  }

  // ---------------------------------------------------------------- conservation

  /** The sum of all increments of key k that a run performed, over all nodes. */
  ghost function Increments(s: State, steps: seq<Step>, k: Key): int {
    if steps == [] then 0
    else
      var last := steps[|steps| - 1];
      Increments(s, steps[..|steps| - 1], k)
      + if last.Count? && last.key == k && Enabled(Run(s, steps[..|steps| - 1]), last) then last.delta else 0
  }

  /** The sum of what nodes 0 .. n-1 hold for themselves. */
  ghost function SumOwners(s: State, k: Key, n: nat): int
    requires n <= |s.replicas|
  {
    if n == 0 then 0 else SumOwners(s, k, n - 1) + Partial(s.replicas[n - 1], k, n - 1)
  }

  lemma {:induction false} NextSumOwners(s: State, step: Step, k: Key, n: nat)
    requires AllBehind(s) && Enabled(s, step) && n <= |s.replicas|
    ensures SumOwners(Next(s, step), k, n)
            == SumOwners(s, k, n) + if step.Count? && step.key == k && step.node < n then step.delta else 0
  {
    if n > 0 {
      NextSumOwners(s, step, k, n - 1);
      if step.node == n - 1 && step.Merge? {
        assert ReplicaBehind(s, n - 1);
        assert CallBehind(s, n - 1, s.replicas[n - 1].calls[step.id]);
      }
    }
  }

  lemma {:induction false} OwnersHoldIncrements(walls: seq<int>, offsets: seq<int>, steps: seq<Step>, k: Key)
    requires |walls| == |offsets|
    requires forall i :: 0 <= i < |steps| ==> Grows(steps[i])
    ensures var s := Run(Initial(walls, offsets), steps);
            |s.replicas| == |walls| && SumOwners(s, k, |walls|) == Increments(Initial(walls, offsets), steps, k)
  {
    var s0 := Initial(walls, offsets);
    if steps == [] {
      EmptyOwners(s0, k, |walls|);
    } else {
      var before := steps[..|steps| - 1];
      OwnersHoldIncrements(walls, offsets, before, k);
      RunKeepsInv(walls, offsets, before);
      if Enabled(Run(s0, before), steps[|steps| - 1]) {
        NextSumOwners(Run(s0, before), steps[|steps| - 1], k, |walls|);
      }
    }
  }

  lemma {:induction false} EmptyOwners(s: State, k: Key, n: nat)
    requires n <= |s.replicas| && forall m :: 0 <= m < |s.replicas| ==> s.replicas[m].counts == map[]
    ensures SumOwners(s, k, n) == 0
  {
    if n > 0 {
      EmptyOwners(s, k, n - 1);
    }
  }

  lemma {:induction false} SumOfOwners(s: State, r: Replica, k: Key, n: nat)
    requires n <= |s.replicas|
    requires forall m: nat :: m < n ==> Partial(r, k, m) == Partial(s.replicas[m], k, m)
    ensures SumPartials(r, k, n) == SumOwners(s, k, n)
  {
    if n > 0 {
      SumOfOwners(s, r, k, n - 1);
    }
  }

  /** Conservation. Once every call has finished and a node has applied every log, the
      count it reports is the sum of all increments made anywhere in the run. */
  lemma CountIsTotal(walls: seq<int>, offsets: seq<int>, steps: seq<Step>, n: NodeId, k: Key)
    requires |walls| == |offsets| && n < |walls|
    requires forall i :: 0 <= i < |steps| ==> Grows(steps[i])
    ensures var s := Run(Initial(walls, offsets), steps);
            |s.replicas| == |walls| &&
            ((forall m: nat :: m < |walls| ==>
                Quiet(s.replicas[m]) && OwnEntries(s.replicas[m]) <= Applied(s.replicas[n])) ==>
              Aggregate(s.replicas[n], k) == Increments(Initial(walls, offsets), steps, k))
  {
    RunKeepsInv(walls, offsets, steps);
    AggregateIsSum(walls, offsets, steps);
    OwnersHoldIncrements(walls, offsets, steps, k);
    var s := Run(Initial(walls, offsets), steps);
    if forall m: nat :: m < |walls| ==>
         Quiet(s.replicas[m]) && OwnEntries(s.replicas[m]) <= Applied(s.replicas[n]) {
      forall m: nat | m < |walls| ensures Partial(s.replicas[n], k, m) == Partial(s.replicas[m], k, m) {
        PeerReachesOwner(s, n, m, k);
      }
      SumOfOwners(s, s.replicas[n], k, |walls|);
    }
  }

  // ---------------------------------------------------------------- increments of any sign

  /** No node is sent its own log. */
  predicate NoSelf(step: Step) { step.Receive? ==> step.from != step.node }

  ghost predicate InLog(r: Replica, e: Entry) {
    exists i :: 0 <= i < |r.log| && r.log[i].entry == e
  }

  /** A count entry that reached node n was logged by another node, its owner. */
  ghost predicate Genuine(s: State, n: NodeId, e: Entry) {
    e.CountEntry? ==> e.node < |s.replicas| && e.node != n && InLog(s.replicas[e.node], e)
  }

  ghost predicate CallGenuine(s: State, n: NodeId, c: Call) {
    && (c.Accepted? ==> Genuine(s, n, c.entry))
    && (c.Ready? && c.entry.CountEntry? ==> c.entry.node == n)
  }

  ghost predicate ReplicaGenuine(s: State, n: NodeId)
    requires n < |s.replicas|
  {
    var r := s.replicas[n];
    && (forall id :: id in r.calls ==> CallGenuine(s, n, r.calls[id]))
    && (forall i :: 0 <= i < |r.log| && r.log[i].entry.CountEntry? ==> r.log[i].entry.node == n)
    && (forall e :: e in r.received ==> Genuine(s, n, e))
  }

  ghost predicate AllGenuine(s: State) {
    WellFormed(s) && forall n: nat :: n < |s.replicas| ==> ReplicaGenuine(s, n)
  }

  lemma GenuinePersists(s: State, step: Step, n: NodeId, e: Entry)
    requires Enabled(s, step) && Genuine(s, n, e)
    ensures Genuine(Next(s, step), n, e)
  {
    if e.CountEntry? {
      var r, r' := s.replicas[e.node], Next(s, step).replicas[e.node];
      var i :| 0 <= i < |r.log| && r.log[i].entry == e;
      assert r'.log[i].entry == e;
    }
  }

  lemma NextCallGenuine(s: State, step: Step, n: NodeId, id: nat)
    requires AllGenuine(s) && Enabled(s, step) && NoSelf(step) && n < |s.replicas|
    requires id in Next(s, step).replicas[n].calls
    ensures CallGenuine(Next(s, step), n, Next(s, step).replicas[n].calls[id])
  {
    assert ReplicaGenuine(s, n);
    if n == step.node && id == step.id {
      if step.Receive? {
        var r := s.replicas[step.from];
        assert ReplicaGenuine(s, step.from);
        var e := r.log[step.index].entry;
        assert InLog(r, e);
        GenuinePersists(s, step, n, e);
      }
    } else {
      var c := s.replicas[n].calls[id];
      assert CallGenuine(s, n, c);
      if c.Accepted? {
        GenuinePersists(s, step, n, c.entry);
      }
    }
  }

  lemma NextReplicaGenuine(s: State, step: Step, n: NodeId)
    requires AllGenuine(s) && Enabled(s, step) && NoSelf(step) && n < |s.replicas|
    ensures ReplicaGenuine(Next(s, step), n)
  {
    var s' := Next(s, step);
    assert ReplicaGenuine(s, n);
    forall id | id in s'.replicas[n].calls ensures CallGenuine(s', n, s'.replicas[n].calls[id]) {
      NextCallGenuine(s, step, n, id);
    }
    forall e | e in s'.replicas[n].received ensures Genuine(s', n, e) {
      if e !in s.replicas[n].received {
        assert CallGenuine(s, n, s.replicas[n].calls[step.id]);
      }
      GenuinePersists(s, step, n, e);
    }
    NextLogOwn(s, step, n);
  }

  lemma NextLogOwn(s: State, step: Step, n: NodeId)
    requires AllGenuine(s) && Enabled(s, step) && n < |s.replicas|
    ensures var r := Next(s, step).replicas[n];
            forall i :: 0 <= i < |r.log| && r.log[i].entry.CountEntry? ==> r.log[i].entry.node == n
  {
    assert ReplicaGenuine(s, n);
    if n == step.node && step.Publish? {
      assert CallGenuine(s, n, s.replicas[n].calls[step.id]);
    }
  }

  lemma GenuineIsHarmless(s: State, step: Step)
    requires AllGenuine(s) && Enabled(s, step)
    ensures Harmless(s, step)
  {
    assert ReplicaGenuine(s, step.node);
    if step.Merge? {
      assert CallGenuine(s, step.node, s.replicas[step.node].calls[step.id]);
    }
  }

  /** Over every run, with any increments, in which no node is sent its own log: each live
      partial is accounted for, each copy is the largest total received, and only the
      owner's totals are. */
  lemma {:induction false} RunIsGenuine(walls: seq<int>, offsets: seq<int>, steps: seq<Step>)
    requires |walls| == |offsets|
    requires forall i :: 0 <= i < |steps| ==> NoSelf(steps[i])
    ensures var s := Run(Initial(walls, offsets), steps);
            AllGenuine(s) && AllAccounted(s) && AllCopied(s) && |s.replicas| == |walls|
  {
    if steps != [] {
      var s, step := Run(Initial(walls, offsets), steps[..|steps| - 1]), steps[|steps| - 1];
      RunIsGenuine(walls, offsets, steps[..|steps| - 1]);
      if Enabled(s, step) {
        forall n: nat | n < |s.replicas| ensures ReplicaGenuine(Next(s, step), n) {
          NextReplicaGenuine(s, step, n);
        }
        GenuineIsHarmless(s, step);
        NextAccounted(s, step);
        NextCopied(s, step);
      }
    }
  }

  lemma ReceivedIsLogged(s: State, n: NodeId, m: NodeId, e: Entry)
    requires AllGenuine(s) && n < |s.replicas| && m < |s.replicas|
    requires e in s.replicas[n].received && e.CountEntry? && e.node == m
    ensures e in OwnEntries(s.replicas[m])
  {
    assert ReplicaGenuine(s, n);
    var r := s.replicas[m];
    var i :| 0 <= i < |r.log| && r.log[i].entry == e;
    assert r.log[i] in r.log;
  }

  /** A peer that has applied the whole log of another node holds the largest total that
      node ever logged, or zero. */
  lemma PeerHoldsLargest(s: State, n: NodeId, m: NodeId, k: Key)
    requires AllGenuine(s) && AllCopied(s) && n < |s.replicas| && m < |s.replicas| && n != m
    requires OwnEntries(s.replicas[m]) <= Applied(s.replicas[n])
    ensures IsLargest(OwnEntries(s.replicas[m]), k, m, Partial(s.replicas[n], k, m))
  {
    var r := s.replicas[n];
    assert ReplicaGenuine(s, n) && IsLargest(r.received, k, m, Partial(r, k, m));
    forall e | e in OwnEntries(s.replicas[m]) && e.CountEntry? && e.key == k && e.node == m
      ensures e.total <= Partial(r, k, m)
    {
      assert e in r.received;
    }
    if Partial(r, k, m) != 0 {
      var e :| e in r.received && e.CountEntry? && e.key == k && e.node == m && e.total == Partial(r, k, m);
      ReceivedIsLogged(s, n, m, e);
    }
  }

  /** The documentation calls the counter a PN-counter, but decrements can be lost. Over every
      run, with any increments, in which no node is sent its own log: a peer that has applied
      the whole log of a node with no increment in flight agrees with it exactly when its
      partial is not negative and no total it logged is larger. */
  lemma PeerAgreesExactlyWhenLargest(walls: seq<int>, offsets: seq<int>, steps: seq<Step>, n: NodeId, m: NodeId, k: Key)
    requires |walls| == |offsets| && n < |walls| && m < |walls| && n != m
    requires forall i :: 0 <= i < |steps| ==> NoSelf(steps[i])
    ensures var s := Run(Initial(walls, offsets), steps);
            |s.replicas| == |walls| &&
            var v := Partial(s.replicas[m], k, m);
            Quiet(s.replicas[m]) && OwnEntries(s.replicas[m]) <= Applied(s.replicas[n]) ==>
              (Partial(s.replicas[n], k, m) == v <==>
                 v >= 0 && forall e :: e in OwnEntries(s.replicas[m]) && e.key == k ==> e.total <= v)
  {
    RunIsGenuine(walls, offsets, steps);
    var s := Run(Initial(walls, offsets), steps);
    if Quiet(s.replicas[m]) && OwnEntries(s.replicas[m]) <= Applied(s.replicas[n]) {
      PeerHoldsLargest(s, n, m, k);
      QuietIsLogged(s, m, k);
    }
  }

  lemma QuietIsLogged(s: State, m: NodeId, k: Key)
    requires AllGenuine(s) && AllAccounted(s) && m < |s.replicas| && Quiet(s.replicas[m])
    ensures var r := s.replicas[m];
            && (Partial(r, k, m) != 0 ==> exists e :: e in OwnEntries(r) && e.key == k && e.total == Partial(r, k, m))
            && (forall e :: e in OwnEntries(r) ==> e.node == m)
  {
    var r := s.replicas[m];
    var v := Partial(r, k, m);
    assert Accounted(r, m) && ReplicaGenuine(s, m);
    if v != 0 {
      assert KeyAccounted(r, m, k);
      var i :| 0 <= i < |r.log| && r.log[i].entry.CountEntry? && r.log[i].entry.key == k && r.log[i].entry.total == v;
      assert r.log[i] in r.log;
      assert r.log[i].entry in OwnEntries(r);
    }
  }
}
