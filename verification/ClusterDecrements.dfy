/** Decrements in the cluster: what a peer makes of the increments of a node whose calls do
    not overlap, and two runs that show how overlapping matters. */
module ClusterDecrements {
  import opened Wrappers
  import opened Clock
  import opened Registers
  import opened Cluster
  import opened ClusterCounters
  import C = Causality

  // ---------------------------------------------------------------- calls that do not overlap

  ghost function Sum(deltas: seq<int>): int {
    if deltas == [] then 0 else Sum(deltas[..|deltas| - 1]) + deltas[|deltas| - 1]
  }

  /** An increment of key k that is not yet in the log. */
  predicate Counting(c: Call, k: Key) {
    || c == Counted(k)
    || (c.ReadBack? && c.key == k)
    || (c.Ready? && c.entry.CountEntry? && c.entry.key == k)
  }

  ghost predicate Idle(r: Replica, k: Key) {
    forall id :: id in r.calls ==> !Counting(r.calls[id], k)
  }

  /** Node m begins an increment of key k only when none is in flight. */
  ghost predicate Apart(s: State, step: Step, m: NodeId, k: Key) {
    step.Count? && step.node == m && step.key == k && m < |s.replicas| ==> Idle(s.replicas[m], k)
  }

  ghost predicate AllApart(s: State, steps: seq<Step>, m: NodeId, k: Key) {
    steps == [] ||
    (AllApart(s, steps[..|steps| - 1], m, k) && Apart(Run(s, steps[..|steps| - 1]), steps[|steps| - 1], m, k))
  }

  /** What a step adds to the increments of key k by node m. */
  function Delta(s: State, step: Step, m: NodeId, k: Key): seq<int> {
    if step.Count? && step.node == m && step.key == k && Enabled(s, step) then [step.delta] else []
  }

  /** The increments of key k that node m made in a run, in order. */
  function Deltas(s: State, steps: seq<Step>, m: NodeId, k: Key): seq<int> {
    if steps == [] then []
    else
      var before := steps[..|steps| - 1];
      Deltas(s, before, m, k) + Delta(Run(s, before), steps[|steps| - 1], m, k)
  }

  ghost predicate IsPrefixSum(v: int, deltas: seq<int>) {
    exists i :: 1 <= i <= |deltas| && v == Sum(deltas[..i])
  }

  ghost predicate EntryFollows(e: Entry, k: Key, deltas: seq<int>) {
    e.CountEntry? && e.key == k ==> IsPrefixSum(e.total, deltas)
  }

  ghost predicate CallFollows(c: Call, k: Key, deltas: seq<int>) {
    && (Counting(c, k) ==> deltas != [])
    && (c.ReadBack? && c.key == k ==> c.total == Sum(deltas))
    && (c.Ready? && c.entry.CountEntry? && c.entry.key == k ==> c.entry.total == Sum(deltas))
  }

  ghost predicate Covers(r: Replica, k: Key, deltas: seq<int>, i: nat)
    requires i <= |deltas|
  {
    HasLogged(r, k, Sum(deltas[..i])) || (i == |deltas| && !Idle(r, k))
  }

  /** The log holds the running totals of the increments, less the last one while it is in
      flight. */
  ghost predicate Sequential(r: Replica, m: NodeId, k: Key, deltas: seq<int>) {
    && Partial(r, k, m) == Sum(deltas)
    && (forall id :: id in r.calls ==> CallFollows(r.calls[id], k, deltas))
    && (forall i :: 0 <= i < |r.log| ==> EntryFollows(r.log[i].entry, k, deltas))
    && (forall i: nat :: 1 <= i <= |deltas| ==> Covers(r, k, deltas, i))
  }

  lemma LongerPrefixes(deltas: seq<int>, d: int, v: int)
    ensures IsPrefixSum(v, deltas) ==> IsPrefixSum(v, deltas + [d])
    ensures Sum(deltas + [d]) == Sum(deltas) + d
  {
    assert (deltas + [d])[..|deltas|] == deltas;
    if IsPrefixSum(v, deltas) {
      var i :| 1 <= i <= |deltas| && v == Sum(deltas[..i]);
      assert (deltas + [d])[..i] == deltas[..i];
    }
  }

  lemma CountFollows(r: Replica, m: NodeId, k: Key, deltas: seq<int>, id: nat, d: int)
    requires Sequential(r, m, k, deltas) && Idle(r, k)
    ensures Sequential(Enter(AddCount(r, k, m, d), id, Counted(k)), m, k, deltas + [d])
  {
    var r', more := Enter(AddCount(r, k, m, d), id, Counted(k)), deltas + [d];
    LongerPrefixes(deltas, d, 0);
    forall i | 0 <= i < |r'.log| ensures EntryFollows(r'.log[i].entry, k, more) {
      assert EntryFollows(r.log[i].entry, k, deltas);
      if r.log[i].entry.CountEntry? {
        LongerPrefixes(deltas, d, r.log[i].entry.total);
      }
    }
    assert Counting(r'.calls[id], k);
    forall i: nat | 1 <= i <= |more| ensures Covers(r', k, more, i) {
      if i <= |deltas| {
        assert Covers(r, k, deltas, i);
        assert more[..i] == deltas[..i];
      }
    }
  }

  lemma PublishFollows(r: Replica, m: NodeId, k: Key, deltas: seq<int>, id: nat, e: Entry, event: nat)
    requires Sequential(r, m, k, deltas) && id in r.calls
    requires r.calls[id] == Ready(e, event) || (r.calls[id].Stored? && !e.CountEntry?)
    ensures Sequential(Append(Leave(r, id), e, event), m, k, deltas)
  {
    var r' := Append(Leave(r, id), e, event);
    assert CallFollows(r.calls[id], k, deltas) && deltas[..|deltas|] == deltas;
    forall i | 0 <= i < |r'.log| ensures EntryFollows(r'.log[i].entry, k, deltas) {
      if i < |r.log| {
        assert EntryFollows(r.log[i].entry, k, deltas);
      }
    }
    forall i: nat | 1 <= i <= |deltas| ensures Covers(r', k, deltas, i) {
      assert Covers(r, k, deltas, i);
      LogGrows(Leave(r, id), e, event, k, Sum(deltas[..i]));
      if !HasLogged(r, k, Sum(deltas[..i])) {
        var other :| other in r.calls && Counting(r.calls[other], k);
        if other != id {
          assert Counting(r'.calls[other], k);
        }
      }
    }
  }

  /** A step that neither increments the key nor publishes. */
  lemma OtherFollows(r: Replica, r': Replica, m: NodeId, k: Key, deltas: seq<int>)
    requires Sequential(r, m, k, deltas) && r'.log == r.log && Partial(r', k, m) == Partial(r, k, m)
    requires forall id :: id in r'.calls ==> CallFollows(r'.calls[id], k, deltas)
    requires Idle(r', k) ==> Idle(r, k)
    ensures Sequential(r', m, k, deltas)
  {
    forall i: nat | 1 <= i <= |deltas| ensures Covers(r', k, deltas, i) {
      assert Covers(r, k, deltas, i);
    }
  }

  lemma OtherCallsFollow(s: State, step: Step, k: Key, deltas: seq<int>, id: nat)
    requires Enabled(s, step) && !(step.Count? && step.key == k)
    requires Sequential(s.replicas[step.node], step.node, k, deltas) && id in NextReplica(s, step).calls
    ensures CallFollows(NextReplica(s, step).calls[id], k, deltas)
  {
    var r := s.replicas[step.node];
    if id in r.calls {
      assert CallFollows(r.calls[id], k, deltas);
    }
  }

  lemma StaysBusy(s: State, step: Step, k: Key)
    requires Enabled(s, step) && !step.Publish? && Idle(NextReplica(s, step), k)
    ensures Idle(s.replicas[step.node], k)
  {
    var r, r' := s.replicas[step.node], NextReplica(s, step);
    forall id | id in r.calls ensures !Counting(r.calls[id], k) {
      if id in r'.calls {
        assert !Counting(r'.calls[id], k);
      }
    }
  }

  lemma NextFollows(s: State, step: Step, k: Key, deltas: seq<int>)
    requires Enabled(s, step) && Harmless(s, step) && Apart(s, step, step.node, k)
    requires Sequential(s.replicas[step.node], step.node, k, deltas)
    ensures Sequential(NextReplica(s, step), step.node, k, deltas + Delta(s, step, step.node, k))
  {
    var n, r, r' := step.node, s.replicas[step.node], NextReplica(s, step);
    if step.Count? && step.key == k {
      CountFollows(r, n, k, deltas, step.id, step.delta);
    } else {
      assert deltas + [] == deltas;
      if step.Publish? {
        var c := r.calls[step.id];
        PublishFollows(r, n, k, deltas, step.id, if c.Stored? then RegisterEntry(Wire(c.w)) else c.entry, c.event);
      } else {
        forall id | id in r'.calls ensures CallFollows(r'.calls[id], k, deltas) {
          OtherCallsFollow(s, step, k, deltas, id);
        }
        if Idle(r', k) {
          StaysBusy(s, step, k);
        }
        OtherFollows(r, r', n, k, deltas);
      }
    }
  }

  lemma {:induction false} RunFollows(walls: seq<int>, offsets: seq<int>, steps: seq<Step>, m: NodeId, k: Key)
    requires |walls| == |offsets| && m < |walls|
    requires forall i :: 0 <= i < |steps| ==> NoSelf(steps[i])
    requires AllApart(Initial(walls, offsets), steps, m, k)
    ensures var s := Run(Initial(walls, offsets), steps);
            |s.replicas| == |walls| && Sequential(s.replicas[m], m, k, Deltas(Initial(walls, offsets), steps, m, k))
  {
    var s0 := Initial(walls, offsets);
    RunIsGenuine(walls, offsets, steps);
    if steps != [] {
      var before, step := steps[..|steps| - 1], steps[|steps| - 1];
      var s := Run(s0, before);
      RunFollows(walls, offsets, before, m, k);
      RunIsGenuine(walls, offsets, before);
      assert Deltas(s0, before, m, k) + [] == Deltas(s0, before, m, k);
      if Enabled(s, step) && step.node == m {
        GenuineIsHarmless(s, step);
        NextFollows(s, step, k, Deltas(s0, before, m, k));
      }
    }
  }

  lemma QuietIsIdle(r: Replica, k: Key)
    requires Quiet(r)
    ensures Idle(r, k)
  {
  }

  /** What a node that is quiet has logged for a key: the running totals. */
  lemma LoggedTotals(r: Replica, m: NodeId, k: Key, deltas: seq<int>, v: int)
    requires Sequential(r, m, k, deltas) && Idle(r, k)
    ensures IsPrefixSum(v, deltas) <==> exists e :: e in OwnEntries(r) && e.key == k && e.total == v
  {
    if IsPrefixSum(v, deltas) {
      var i :| 1 <= i <= |deltas| && v == Sum(deltas[..i]);
      assert Covers(r, k, deltas, i);
      var j :| 0 <= j < |r.log| && r.log[j].entry.CountEntry? && r.log[j].entry.key == k && r.log[j].entry.total == v;
      assert r.log[j] in r.log;
      assert r.log[j].entry in OwnEntries(r);
    }
    forall e | e in OwnEntries(r) && e.key == k && e.total == v ensures IsPrefixSum(v, deltas) {
      var l :| l in r.log && l.entry == e;
      var j :| 0 <= j < |r.log| && r.log[j] == l;
      assert EntryFollows(r.log[j].entry, k, deltas);
    }
  }

  /** When the increments of a key by a node do not overlap, a peer that has applied its
      whole log agrees with it exactly when no earlier running total, the empty one
      included, exceeds the final one. */
  lemma PeerAgreesExactlyWhenPeak(walls: seq<int>, offsets: seq<int>, steps: seq<Step>, n: NodeId, m: NodeId, k: Key)
    requires |walls| == |offsets| && n < |walls| && m < |walls| && n != m
    requires forall i :: 0 <= i < |steps| ==> NoSelf(steps[i])
    requires AllApart(Initial(walls, offsets), steps, m, k)
    ensures var s, deltas := Run(Initial(walls, offsets), steps), Deltas(Initial(walls, offsets), steps, m, k);
            |s.replicas| == |walls| &&
            (Quiet(s.replicas[m]) && OwnEntries(s.replicas[m]) <= Applied(s.replicas[n]) ==>
               (Partial(s.replicas[n], k, m) == Partial(s.replicas[m], k, m) <==>
                  forall i :: 0 <= i <= |deltas| ==> Sum(deltas[..i]) <= Sum(deltas)))
  {
    var s, deltas := Run(Initial(walls, offsets), steps), Deltas(Initial(walls, offsets), steps, m, k);
    RunFollows(walls, offsets, steps, m, k);
    PeerAgreesExactlyWhenLargest(walls, offsets, steps, n, m, k);
    var r := s.replicas[m];
    if Quiet(r) {
      QuietIsIdle(r, k);
      TotalsBelow(r, m, k, deltas);
    }
  }

  lemma TotalsBelow(r: Replica, m: NodeId, k: Key, deltas: seq<int>)
    requires Sequential(r, m, k, deltas) && Idle(r, k)
    ensures (Sum(deltas) >= 0 && forall e :: e in OwnEntries(r) && e.key == k ==> e.total <= Sum(deltas)) <==>
            forall i :: 0 <= i <= |deltas| ==> Sum(deltas[..i]) <= Sum(deltas)
  {
    if Sum(deltas) >= 0 && forall e :: e in OwnEntries(r) && e.key == k ==> e.total <= Sum(deltas) {
      forall i | 0 <= i <= |deltas| ensures Sum(deltas[..i]) <= Sum(deltas) {
        if i > 0 {
          assert IsPrefixSum(Sum(deltas[..i]), deltas);
          LoggedTotals(r, m, k, deltas, Sum(deltas[..i]));
        }
      }
    }
    if forall i :: 0 <= i <= |deltas| ==> Sum(deltas[..i]) <= Sum(deltas) {
      assert Sum(deltas[..0]) <= Sum(deltas);
      forall e | e in OwnEntries(r) && e.key == k ensures e.total <= Sum(deltas) {
        LoggedTotals(r, m, k, deltas, e.total);
      }
    }
  }

  // ---------------------------------------------------------------- two runs

  /** What node 0 of a cluster of two holds and has logged for key k, and what node 1 holds
      of it. */
  datatype View = View(own: int, totals: seq<int>, copy: int, calls: map<nat, Call>)

  ghost predicate IsTotal(s: State, l: Logged, k: Key, total: int) {
    && l.entry.CountEntry? && l.entry.key == k && l.entry.node == 0 && l.entry.total == total
    && l.entry.at.physical == 0 && IssuedAt(s.clock, l.event, l.entry.at)
  }

  ghost predicate Shows(s: State, k: Key, v: View) {
    && WellFormed(s) && |s.replicas| == 2 && s.clock.offsets == [0, 0]
    && s.clock.clocks[0].physical == 0
    && s.replicas[0].calls == v.calls && Partial(s.replicas[0], k, 0) == v.own
    && |s.replicas[0].log| == |v.totals|
    && (forall i :: 0 <= i < |v.totals| ==> IsTotal(s, s.replicas[0].log[i], k, v.totals[i]))
    && s.replicas[1].calls == map[] && Partial(s.replicas[1], k, 0) == v.copy
  }

  lemma CountShows(s: State, k: Key, v: View, id: nat, d: int)
    requires Shows(s, k, v) && id !in v.calls
    ensures Shows(Next(s, Count(0, id, k, d)), k, v.(own := v.own + d, calls := v.calls[id := Counted(k)]))
  {
    var s' := Next(s, Count(0, id, k, d));
    forall i | 0 <= i < |v.totals| ensures IsTotal(s', s'.replicas[0].log[i], k, v.totals[i]) {
      assert IsTotal(s, s.replicas[0].log[i], k, v.totals[i]);
    }
  }

  lemma ReadShows(s: State, k: Key, v: View, id: nat)
    requires Shows(s, k, v) && id in v.calls && v.calls[id] == Counted(k)
    ensures Shows(Next(s, ReadCount(0, id)), k, v.(calls := v.calls[id := ReadBack(k, v.own)]))
  {
    var s' := Next(s, ReadCount(0, id));
    forall i | 0 <= i < |v.totals| ensures IsTotal(s', s'.replicas[0].log[i], k, v.totals[i]) {
      assert IsTotal(s, s.replicas[0].log[i], k, v.totals[i]);
    }
  }

  lemma StampShows(s: State, k: Key, v: View, id: nat, total: int) returns (l: Logged)
    requires Shows(s, k, v) && id in v.calls && v.calls[id] == ReadBack(k, total)
    ensures var s' := Next(s, StampCount(0, id, 0));
            Shows(s', k, v.(calls := v.calls[id := Ready(l.entry, l.event)])) && IsTotal(s', l, k, total)
  {
    var s' := Next(s, StampCount(0, id, 0));
    l := Logged(CountEntry(s'.clock.clocks[0], k, 0, total), |s.clock.events|);
    forall i | 0 <= i < |v.totals| ensures IsTotal(s', s'.replicas[0].log[i], k, v.totals[i]) {
      assert IsTotal(s, s.replicas[0].log[i], k, v.totals[i]);
    }
  }

  lemma PublishShows(s: State, k: Key, v: View, id: nat, l: Logged, total: int)
    requires Shows(s, k, v) && id in v.calls && v.calls[id] == Ready(l.entry, l.event) && IsTotal(s, l, k, total)
    ensures Shows(Next(s, Publish(0, id)), k, v.(totals := v.totals + [total], calls := v.calls - {id}))
  {
    var s' := Next(s, Publish(0, id));
    forall i | 0 <= i <= |v.totals| ensures IsTotal(s', s'.replicas[0].log[i], k, (v.totals + [total])[i]) {
      if i < |v.totals| {
        assert IsTotal(s, s.replicas[0].log[i], k, v.totals[i]);
      } else {
        assert s'.replicas[0].log[i] == l;
      }
    }
  }

  lemma ReceiveShows(s: State, k: Key, v: View, i: nat)
    requires Shows(s, k, v) && i < |v.totals|
    ensures var s' := Next(s, Receive(1, 0, 0, i, 0));
            && s'.replicas == s.replicas[1 := Enter(s.replicas[1], 0, Accepted(s.replicas[0].log[i].entry))]
            && WellFormed(s') && s'.clock.offsets == [0, 0] && s'.clock.clocks[0] == s.clock.clocks[0]
            && (forall j :: 0 <= j < |v.totals| ==> IsTotal(s', s.replicas[0].log[j], k, v.totals[j]))
  {
    var s' := Next(s, Receive(1, 0, 0, i, 0));
    assert IsTotal(s, s.replicas[0].log[i], k, v.totals[i]);
    forall j | 0 <= j < |v.totals| ensures IsTotal(s', s.replicas[0].log[j], k, v.totals[j]) {
      assert IsTotal(s, s.replicas[0].log[j], k, v.totals[j]);
    }
  }

  lemma DeliverShows(s: State, k: Key, v: View, i: nat)
    requires Shows(s, k, v) && i < |v.totals|
    ensures Shows(Next(Next(s, Receive(1, 0, 0, i, 0)), Step.Merge(1, 0)), k, v.(copy := Max(v.copy, v.totals[i])))
  {
    ReceiveShows(s, k, v, i);
    var s1 := Next(s, Receive(1, 0, 0, i, 0));
    assert IsTotal(s1, s.replicas[0].log[i], k, v.totals[i]);
    var s2 := Next(s1, Step.Merge(1, 0));
    assert s2.replicas[0] == s.replicas[0] && s2.clock == s1.clock;
    forall j | 0 <= j < |v.totals| ensures IsTotal(s2, s2.replicas[0].log[j], k, v.totals[j]) {
      assert IsTotal(s1, s.replicas[0].log[j], k, v.totals[j]);
    }
    assert Leave(s1.replicas[1], 0).calls == map[];
  }

  lemma {:induction false} RunConcat(s: State, xs: seq<Step>, ys: seq<Step>)
    ensures Run(s, xs + ys) == Run(Run(s, xs), ys)
  {
    if ys == [] {
      assert xs + ys == xs;
    } else {
      var n := |ys| - 1;
      RunConcat(s, xs, ys[..n]);
      assert (xs + ys)[..|xs + ys| - 1] == xs + ys[..n];
    }
  }

  lemma RunTwo(s: State, a: Step, b: Step)
    ensures Run(s, [a, b]) == Next(Next(s, a), b)
  {
    assert [a, b][..1] == [a] && [a][..0] == [];
    assert Run(s, [a]) == Next(Run(s, []), a);
  }

  lemma RunFour(s: State, a: Step, b: Step, c: Step, d: Step)
    ensures Run(s, [a, b, c, d]) == Next(Next(Next(Next(s, a), b), c), d)
  {
    RunTwo(s, a, b);
    RunTwo(Run(s, [a, b]), c, d);
    RunConcat(s, [a, b], [c, d]);
    assert [a, b] + [c, d] == [a, b, c, d];
  }

  /** One whole call of `IncrementBy` on node 0. */
  function Increment(k: Key, d: int): seq<Step> {
    [Count(0, 0, k, d), ReadCount(0, 0), StampCount(0, 0, 0), Publish(0, 0)]
  }

  /** Entry i of node 0 reaches node 1. */
  function Deliver(i: nat): seq<Step> { [Receive(1, 0, 0, i, 0), Step.Merge(1, 0)] }

  lemma IncrementShows(s: State, k: Key, v: View, d: int)
    requires Shows(s, k, v) && v.calls == map[]
    ensures Shows(Run(s, Increment(k, d)), k, v.(own := v.own + d, totals := v.totals + [v.own + d]))
  {
    RunFour(s, Count(0, 0, k, d), ReadCount(0, 0), StampCount(0, 0, 0), Publish(0, 0));
    CountShows(s, k, v, 0, d);
    var s1, v1 := Next(s, Count(0, 0, k, d)), v.(own := v.own + d, calls := v.calls[0 := Counted(k)]);
    ReadShows(s1, k, v1, 0);
    var s2, v2 := Next(s1, ReadCount(0, 0)), v1.(calls := v1.calls[0 := ReadBack(k, v1.own)]);
    var l := StampShows(s2, k, v2, 0, v1.own);
    PublishShows(Next(s2, StampCount(0, 0, 0)), k, v2.(calls := v2.calls[0 := Ready(l.entry, l.event)]), 0, l, v1.own);
    assert v2.calls[0 := Ready(l.entry, l.event)] - {0} == map[];
  }

  lemma DeliverRuns(s: State, k: Key, v: View, i: nat)
    requires Shows(s, k, v) && i < |v.totals|
    ensures Shows(Run(s, Deliver(i)), k, v.(copy := Max(v.copy, v.totals[i])))
  {
    RunTwo(s, Receive(1, 0, 0, i, 0), Step.Merge(1, 0));
    DeliverShows(s, k, v, i);
  }

  lemma BothDelivered(s: State, k: Key, v: View)
    requires Shows(s, k, v) && |v.totals| == 2
    ensures Shows(Run(s, Deliver(0) + Deliver(1)), k, v.(copy := Max(Max(v.copy, v.totals[0]), v.totals[1])))
  {
    RunConcat(s, Deliver(0), Deliver(1));
    DeliverRuns(s, k, v, 0);
    DeliverRuns(Run(s, Deliver(0)), k, v.(copy := Max(v.copy, v.totals[0])), 1);
  }

  lemma StartShows(k: Key)
    ensures Shows(Initial([0, 0], [0, 0]), k, View(0, [], 0, map[]))
  {
  }

  /** An increment and then a decrement, one after the other, both delivered: the owner is
      left with their sum and the peer with the increment. */
  lemma DecrementIsLost(k: Key, a: int, b: int)
    requires a > 0 > b
    ensures var s := Run(Initial([0, 0], [0, 0]), Increment(k, a) + Increment(k, b) + (Deliver(0) + Deliver(1)));
            |s.replicas| == 2 && Partial(s.replicas[0], k, 0) == a + b && Partial(s.replicas[1], k, 0) == a
  {
    var s0 := Initial([0, 0], [0, 0]);
    StartShows(k);
    IncrementShows(s0, k, View(0, [], 0, map[]), a);
    var s1 := Run(s0, Increment(k, a));
    IncrementShows(s1, k, View(a, [] + [a], 0, map[]), b);
    RunConcat(s0, Increment(k, a), Increment(k, b));
    var s2 := Run(s0, Increment(k, a) + Increment(k, b));
    BothDelivered(s2, k, View(a + b, [] + [a] + [a + b], 0, map[]));
    RunConcat(s0, Increment(k, a) + Increment(k, b), Deliver(0) + Deliver(1));
  }

  /** The rest of a call that has read its partial back. */
  function Log(id: nat): seq<Step> { [StampCount(0, id, 0), Publish(0, id)] }

  function Both(k: Key, a: int, b: int): seq<Step> {
    [Count(0, 0, k, a), Count(0, 1, k, b)] + [ReadCount(0, 0), ReadCount(0, 1)]
  }

  /** The same two calls overlapping: both increments are made before either is read back. */
  function Overlapped(k: Key, a: int, b: int): seq<Step> { Both(k, a, b) + (Log(0) + Log(1)) }

  lemma CountsShow(s: State, k: Key, a: int, b: int)
    requires Shows(s, k, View(0, [], 0, map[]))
    ensures Shows(Run(s, [Count(0, 0, k, a), Count(0, 1, k, b)]), k,
                  View(a + b, [], 0, map[0 := Counted(k), 1 := Counted(k)]))
  {
    RunTwo(s, Count(0, 0, k, a), Count(0, 1, k, b));
    CountShows(s, k, View(0, [], 0, map[]), 0, a);
    CountShows(Next(s, Count(0, 0, k, a)), k, View(a, [], 0, map[0 := Counted(k)]), 1, b);
    assert map[0 := Counted(k)][1 := Counted(k)] == map[0 := Counted(k), 1 := Counted(k)];
  }

  lemma ReadsShow(s: State, k: Key, t: int)
    requires Shows(s, k, View(t, [], 0, map[0 := Counted(k), 1 := Counted(k)]))
    ensures Shows(Run(s, [ReadCount(0, 0), ReadCount(0, 1)]), k,
                  View(t, [], 0, map[0 := ReadBack(k, t), 1 := ReadBack(k, t)]))
  {
    var calls := map[0 := Counted(k), 1 := Counted(k)][0 := ReadBack(k, t)];
    RunTwo(s, ReadCount(0, 0), ReadCount(0, 1));
    ReadShows(s, k, View(t, [], 0, map[0 := Counted(k), 1 := Counted(k)]), 0);
    ReadShows(Next(s, ReadCount(0, 0)), k, View(t, [], 0, calls), 1);
    assert calls[1 := ReadBack(k, t)] == map[0 := ReadBack(k, t), 1 := ReadBack(k, t)];
  }

  lemma LoggedShows(s: State, k: Key, v: View, id: nat, total: int)
    requires Shows(s, k, v) && id in v.calls && v.calls[id] == ReadBack(k, total)
    ensures Shows(Next(Next(s, StampCount(0, id, 0)), Publish(0, id)), k,
                  v.(totals := v.totals + [total], calls := v.calls - {id}))
  {
    var l := StampShows(s, k, v, id, total);
    var calls := v.calls[id := Ready(l.entry, l.event)];
    PublishShows(Next(s, StampCount(0, id, 0)), k, v.(calls := calls), id, l, total);
    assert calls - {id} == v.calls - {id};
  }

  lemma LogShows(s: State, k: Key, v: View, id: nat, total: int)
    requires Shows(s, k, v) && id in v.calls && v.calls[id] == ReadBack(k, total)
    ensures Shows(Run(s, Log(id)), k, v.(totals := v.totals + [total], calls := v.calls - {id}))
  {
    RunTwo(s, StampCount(0, id, 0), Publish(0, id));
    LoggedShows(s, k, v, id, total);
  }

  lemma LogsShow(s: State, k: Key, t: int)
    requires Shows(s, k, View(t, [], 0, map[0 := ReadBack(k, t), 1 := ReadBack(k, t)]))
    ensures Shows(Run(s, Log(0) + Log(1)), k, View(t, [t, t], 0, map[]))
  {
    var back := ReadBack(k, t);
    RunConcat(s, Log(0), Log(1));
    LogShows(s, k, View(t, [], 0, map[0 := back, 1 := back]), 0, t);
    assert map[0 := back, 1 := back] - {0} == map[1 := back] && [] + [t] == [t];
    LogShows(Run(s, Log(0)), k, View(t, [t], 0, map[1 := back]), 1, t);
    assert map[1 := back] - {1} == map[] && [t] + [t] == [t, t];
  }

  lemma OverlappedShows(s: State, k: Key, a: int, b: int)
    requires Shows(s, k, View(0, [], 0, map[]))
    ensures Shows(Run(s, Overlapped(k, a, b)), k, View(a + b, [a + b, a + b], 0, map[]))
  {
    var adds, backs := [Count(0, 0, k, a), Count(0, 1, k, b)], [ReadCount(0, 0), ReadCount(0, 1)];
    RunConcat(s, Both(k, a, b), Log(0) + Log(1));
    RunConcat(s, adds, backs);
    CountsShow(s, k, a, b);
    ReadsShow(Run(s, adds), k, a + b);
    LogsShow(Run(s, Both(k, a, b)), k, a + b);
  }

  /** Overlapping calls may both read back the sum, and then the decrement is not lost. */
  lemma OverlapKeepsDecrement(k: Key, a: int, b: int)
    requires a > 0 > b && a + b >= 0
    ensures var s := Run(Initial([0, 0], [0, 0]), Overlapped(k, a, b) + (Deliver(0) + Deliver(1)));
            |s.replicas| == 2 && Partial(s.replicas[0], k, 0) == a + b == Partial(s.replicas[1], k, 0)
  {
    var s0 := Initial([0, 0], [0, 0]);
    StartShows(k);
    OverlappedShows(s0, k, a, b);
    BothDelivered(Run(s0, Overlapped(k, a, b)), k, View(a + b, [a + b, a + b], 0, map[]));
    RunConcat(s0, Overlapped(k, a, b), Deliver(0) + Deliver(1));
  }
}
