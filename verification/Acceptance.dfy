/** Which entries of a batch the clock of the peer accepts. The steps of `Replication` leave
    that open; here it is decided by the timestamps of the entries and by what the peer reads
    from its wall clock, and tied to the deliveries of `Cluster`. */
module Acceptance {
  import opened Wrappers
  import opened Clock
  import C = Causality
  import K = Cluster
  import R = Replication

  /** The timestamp that a log gave to each sequence number. */
  type Stamps = nat -> Timestamp

  /** The entries of a batch that the clock accepts, with one wall reading for each. */
  function Accepted(stamps: Stamps, from: nat, walls: seq<int>, offset: int): set<nat> {
    set u: nat | from <= u < from + |walls| && !ClockSmash(stamps(u), walls[u - from], offset)
  }

  /** No entry of the batch is ahead of the reading it meets by more than the offset. */
  predicate InTime(stamps: Stamps, from: nat, walls: seq<int>, offset: int) {
    forall i :: 0 <= i < |walls| ==> stamps(from + i).physical <= walls[i] + offset
  }

  lemma WholeExactlyInTime(f: R.Flight, stamps: Stamps, walls: seq<int>, offset: int)
    requires |walls| == f.count
    ensures R.Whole(f, R.Arrived(Accepted(stamps, f.from, walls, offset))) <==> InTime(stamps, f.from, walls, offset)
  {
    var accepted := Accepted(stamps, f.from, walls, offset);
    if R.Whole(f, R.Arrived(accepted)) {
      forall i | 0 <= i < |walls| ensures stamps(f.from + i).physical <= walls[i] + offset {
        assert f.from + i in accepted;
      }
    }
  }

  // ---------------------------------------------------------------- runs of the replicator

  /** What a step does to the batch in flight is what the clock of the peer makes of it. */
  ghost predicate Judged(s: R.State, step: R.Step, stamps: Stamps, offset: int, walls: seq<int>) {
    s.flight.Some? && (step.Succeed? || step.Fail?) && step.outcome.Arrived? ==>
      var f := s.flight.value;
      |walls| == f.count && step.outcome.accepted == Accepted(stamps, f.from, walls, offset)
  }

  /** A successful send arrives, and what arrives is in time. */
  ghost predicate Timely(s: R.State, step: R.Step, stamps: Stamps, offset: int, walls: seq<int>) {
    s.flight.Some? && (step.Succeed? || (step.Fail? && step.outcome.Arrived?)) ==>
      step.outcome.Arrived? && InTime(stamps, s.flight.value.from, walls, offset)
  }

  ghost predicate AllJudged(s: R.State, steps: seq<R.Step>, stamps: Stamps, offset: int, walls: seq<seq<int>>)
    requires |walls| == |steps|
  {
    var n := |steps| - 1;
    steps == [] ||
    (AllJudged(s, steps[..n], stamps, offset, walls[..n])
     && Judged(R.Execute(s, steps[..n]), steps[n], stamps, offset, walls[n]))
  }

  ghost predicate AllTimely(s: R.State, steps: seq<R.Step>, stamps: Stamps, offset: int, walls: seq<seq<int>>)
    requires |walls| == |steps|
  {
    var n := |steps| - 1;
    steps == [] ||
    (AllTimely(s, steps[..n], stamps, offset, walls[..n])
     && Timely(R.Execute(s, steps[..n]), steps[n], stamps, offset, walls[n]))
  }

  lemma FaithfulExactlyWhenTimely(s: R.State, step: R.Step, stamps: Stamps, offset: int, walls: seq<int>)
    requires Judged(s, step, stamps, offset, walls)
    ensures R.Faithful(s, step) <==> Timely(s, step, stamps, offset, walls)
  {
    if s.flight.Some? && (step.Succeed? || step.Fail?) && step.outcome.Arrived? {
      WholeExactlyInTime(s.flight.value, stamps, walls, offset);
      assert step.outcome == R.Arrived(Accepted(stamps, s.flight.value.from, walls, offset));
    }
  }

  lemma {:induction false} AllFaithfulExactlyWhenTimely(
    s: R.State, steps: seq<R.Step>, stamps: Stamps, offset: int, walls: seq<seq<int>>)
    requires |walls| == |steps| && AllJudged(s, steps, stamps, offset, walls)
    ensures R.AllFaithful(s, steps) <==> AllTimely(s, steps, stamps, offset, walls)
  {
    if steps != [] {
      var n := |steps| - 1;
      AllFaithfulExactlyWhenTimely(s, steps[..n], stamps, offset, walls[..n]);
      FaithfulExactlyWhenTimely(R.Execute(s, steps[..n]), steps[n], stamps, offset, walls[n]);
    }
  }

  /** In a calm run the peer has applied every entry up to the cursor, once each and in order,
      exactly when each batch whose send succeeded arrived at a peer whose wall clock was at
      most the offset behind the timestamps in it. */
  lemma AppliedExactlyWhenTimely(
    capacity: nat, steps: seq<R.Step>, stamps: Stamps, offset: int, walls: seq<seq<int>>)
    requires capacity > 0 && R.AllCalm(R.Initial(capacity, 0), steps)
    requires |walls| == |steps| && AllJudged(R.Initial(capacity, 0), steps, stamps, offset, walls)
    ensures var s := R.Execute(R.Initial(capacity, 0), steps);
            s.applied == R.Run(1, s.cursor) <==> AllTimely(R.Initial(capacity, 0), steps, stamps, offset, walls)
  {
    AllFaithfulExactlyWhenTimely(R.Initial(capacity, 0), steps, stamps, offset, walls);
    R.AppliedExactlyWhenFaithful(capacity, steps);
  }

  // ---------------------------------------------------------------- runs of the cluster

  /** No node has read a wall time later than this. */
  ghost predicate NoneAfter(readings: seq<C.Reading>, bound: int) {
    forall i :: 0 <= i < |readings| ==> readings[i].wall <= bound
  }

  lemma WasReadBefore(readings: seq<C.Reading>, p: int, bound: int)
    requires C.WasRead(readings, p) && NoneAfter(readings, bound)
    ensures p <= bound
  {
  }

  /** Over every run of the cluster, a node whose wall clock plus offset is not behind any
      reading taken so far refuses no entry of any log. */
  lemma NothingRefused(
    walls: seq<int>, offsets: seq<int>, steps: seq<K.Step>, n: nat, wall: int, from: nat, index: nat)
    requires |walls| == |offsets| && K.Short(K.Run(K.Initial(walls, offsets), steps))
    requires var s := K.Run(K.Initial(walls, offsets), steps);
             && n < |s.clock.offsets| && NoneAfter(s.clock.readings, wall + s.clock.offsets[n])
             && from < |s.replicas| && index < |s.replicas[from].log|
    ensures var s := K.Run(K.Initial(walls, offsets), steps);
            !ClockSmash(s.replicas[from].log[index].entry.Stamp(), wall, s.clock.offsets[n])
  {
    var s := K.Run(K.Initial(walls, offsets), steps);
    K.RunClocked(walls, offsets, steps);
    var l := s.replicas[from].log[index];
    assert K.ReplicaLinked(s.clock, s.replicas[from]);
    assert K.IssuedAt(s.clock, l.event, l.entry.Stamp());
    WasReadBefore(s.clock.readings, l.entry.Stamp().physical, wall + s.clock.offsets[n]);
  }

  /** Sequence numbers count from one. */
  function StampsOf(log: seq<K.Logged>): Stamps {
    (u: nat) => if 1 <= u <= |log| then log[u - 1].entry.Stamp() else Timestamp(0, 0)
  }

  /** Node n takes one entry of a log: the clock, then the merge. */
  function DeliverOne(s: K.State, n: nat, id: nat, from: nat, index: nat, wall: int): K.State {
    K.Next(K.Next(s, K.Receive(n, id, from, index, wall)), K.Merge(n, id))
  }

  /** Node n takes the entries of a batch that follows the first `seen` ones, in turn. */
  function Deliver(s: K.State, n: nat, id: nat, from: nat, seen: nat, walls: seq<int>): K.State {
    if walls == [] then s
    else
      var k := |walls| - 1;
      DeliverOne(Deliver(s, n, id, from, seen, walls[..k]), n, id, from, seen + k, walls[k])
  }

  /** A replica after it merged the entries of a log with the given sequence numbers. */
  function MergeAll(r: K.Replica, log: seq<K.Logged>, us: seq<nat>): K.Replica
    requires R.Within(us, |log|)
  {
    if us == [] then r
    else
      var last := |us| - 1;
      K.MergeEntry(MergeAll(r, log, us[..last]), log[us[last] - 1].entry)
  }

  /** Node n can take entries up to the given sequence number of the log of `from`. */
  ghost predicate Takes(s: K.State, n: nat, id: nat, from: nat, upTo: nat) {
    && K.WellFormed(s) && K.Linked(s)
    && n < |s.replicas| && from < |s.replicas| && id !in s.replicas[n].calls && upTo <= |s.replicas[from].log|
  }

  lemma ReceiveEnabled(s: K.State, n: nat, id: nat, from: nat, index: nat, wall: int)
    requires Takes(s, n, id, from, index + 1)
    ensures K.Enabled(s, K.Receive(n, id, from, index, wall))
  {
    var l := s.replicas[from].log[index];
    assert K.ReplicaLinked(s.clock, s.replicas[from]);
    assert K.IssuedAt(s.clock, l.event, l.entry.Stamp());
  }

  /** Only what the node has merged and its clock are not as they were. */
  ghost predicate SameElsewhere(s: K.State, s': K.State, n: nat) {
    && |s'.replicas| == |s.replicas| && s'.clock.offsets == s.clock.offsets
    && (forall m :: 0 <= m < |s.replicas| ==> s'.replicas[m].log == s.replicas[m].log)
    && (forall m :: 0 <= m < |s.replicas| && m != n ==> s'.replicas[m] == s.replicas[m])
  }

  lemma MergeLeaves(r: K.Replica, id: nat, e: K.Entry)
    requires id !in r.calls
    ensures K.Leave(K.Enter(r, id, K.Accepted(e)), id) == r
    ensures K.MergeEntry(r, e).log == r.log && K.MergeEntry(r, e).calls == r.calls
  {
    assert K.Enter(r, id, K.Accepted(e)).calls - {id} == r.calls;
  }

  /** Node n has taken one entry: merged it, or refused it. */
  ghost predicate Took(s: K.State, s': K.State, n: nat, id: nat, from: nat, index: nat, upTo: nat, wall: int)
    requires Takes(s, n, id, from, upTo) && index < upTo
  {
    var e := s.replicas[from].log[index].entry;
    && Takes(s', n, id, from, upTo) && SameElsewhere(s, s', n)
    && s'.replicas[n] ==
         if ClockSmash(e.Stamp(), wall, s.clock.offsets[n]) then s.replicas[n] else K.MergeEntry(s.replicas[n], e)
  }

  lemma TakesOne(s: K.State, n: nat, id: nat, from: nat, index: nat, upTo: nat, wall: int)
    requires Takes(s, n, id, from, upTo) && index < upTo
    ensures Took(s, DeliverOne(s, n, id, from, index, wall), n, id, from, index, upTo, wall)
  {
    var receive := K.Receive(n, id, from, index, wall);
    var e := s.replicas[from].log[index].entry;
    ReceiveEnabled(s, n, id, from, index, wall);
    MergeLeaves(s.replicas[n], id, e);
    K.NextLinked(s, receive);
    var s1 := K.Next(s, receive);
    if !ClockSmash(e.Stamp(), wall, s.clock.offsets[n]) {
      assert K.Enabled(s1, K.Merge(n, id));
      K.NextLinked(s1, K.Merge(n, id));
    }
  }

  /** The entries of a batch that are applied, of those after the first `seen` ones. */
  function Applied(stamps: Stamps, seen: nat, walls: seq<int>, offset: int, k: nat): seq<nat> {
    R.Kept(seen + 1, k, R.Arrived(Accepted(stamps, seen + 1, walls, offset)))
  }

  lemma AppliedIsWithin(stamps: Stamps, seen: nat, walls: seq<int>, offset: int, k: nat, n: nat)
    requires seen + k <= n
    ensures R.Within(Applied(stamps, seen, walls, offset, k), n)
  {
    var us := Applied(stamps, seen, walls, offset, k);
    forall i | 0 <= i < |us| ensures 1 <= us[i] <= n {
      R.InKept(seen + 1, k, R.Arrived(Accepted(stamps, seen + 1, walls, offset)), us[i]);
    }
  }

  /** The node has merged what is applied of the first k entries of the batch. */
  ghost predicate MergedSoFar(
    s: K.State, s': K.State, n: nat, id: nat, from: nat, seen: nat, walls: seq<int>, k: nat)
    requires Takes(s, n, id, from, seen + |walls|)
  {
    var log := s.replicas[from].log;
    var us := Applied(StampsOf(log), seen, walls, s.clock.offsets[n], k);
    && Takes(s', n, id, from, seen + |walls|) && SameElsewhere(s, s', n)
    && R.Within(us, |log|) && s'.replicas[n] == MergeAll(s.replicas[n], log, us)
  }

  lemma MergeAllOneMore(r: K.Replica, log: seq<K.Logged>, us: seq<nat>, u: nat)
    requires R.Within(us, |log|) && 1 <= u <= |log|
    ensures R.Within(us + [u], |log|)
    ensures MergeAll(r, log, us + [u]) == K.MergeEntry(MergeAll(r, log, us), log[u - 1].entry)
  {
    assert (us + [u])[..|us|] == us;
  }

  lemma SameElsewhereStill(a: K.State, b: K.State, c: K.State, n: nat)
    requires SameElsewhere(a, b, n) && SameElsewhere(b, c, n)
    ensures SameElsewhere(a, c, n)
  {
  }

  lemma AppliedOneMore(r: K.Replica, log: seq<K.Logged>, seen: nat, walls: seq<int>, offset: int, k: nat)
    requires k < |walls| && seen + |walls| <= |log|
    requires R.Within(Applied(StampsOf(log), seen, walls, offset, k), |log|)
    ensures var us := Applied(StampsOf(log), seen, walls, offset, k);
            var us' := Applied(StampsOf(log), seen, walls, offset, k + 1);
            var e := log[seen + k].entry;
            && R.Within(us', |log|)
            && MergeAll(r, log, us') ==
                 if ClockSmash(e.Stamp(), walls[k], offset) then MergeAll(r, log, us)
                 else K.MergeEntry(MergeAll(r, log, us), e)
  {
    var us, u := Applied(StampsOf(log), seen, walls, offset, k), seen + 1 + k;
    AppliedIsWithin(StampsOf(log), seen, walls, offset, k + 1, |log|);
    AppliedGrows(StampsOf(log), seen, walls, offset, k);
    assert StampsOf(log)(u) == log[seen + k].entry.Stamp();
    if ClockSmash(StampsOf(log)(u), walls[k], offset) {
      assert us + [] == us;
    } else {
      MergeAllOneMore(r, log, us, u);
    }
  }

  lemma AppliedGrows(stamps: Stamps, seen: nat, walls: seq<int>, offset: int, k: nat)
    requires k < |walls|
    ensures Applied(stamps, seen, walls, offset, k + 1)
            == Applied(stamps, seen, walls, offset, k)
               + if ClockSmash(stamps(seen + 1 + k), walls[k], offset) then [] else [seen + 1 + k]
  {
  }

  lemma MergesOneMore(
    s: K.State, s': K.State, s'': K.State, n: nat, id: nat, from: nat, seen: nat, walls: seq<int>, k: nat)
    requires Takes(s, n, id, from, seen + |walls|) && k < |walls|
    requires MergedSoFar(s, s', n, id, from, seen, walls, k)
    requires Took(s', s'', n, id, from, seen + k, seen + |walls|, walls[k])
    ensures MergedSoFar(s, s'', n, id, from, seen, walls, k + 1)
  {
    assert s'.replicas[from].log == s.replicas[from].log && s'.clock.offsets == s.clock.offsets;
    SameElsewhereStill(s, s', s'', n);
    AppliedOneMore(s.replicas[n], s.replicas[from].log, seen, walls, s.clock.offsets[n], k);
  }

  /** Entry k of the batch is taken between the k-th state of a path and the one after it. */
  ghost predicate TookAt(
    path: nat -> K.State, n: nat, id: nat, from: nat, seen: nat, walls: seq<int>, k: nat)
    requires k < |walls|
  {
    Takes(path(k), n, id, from, seen + |walls|) ==>
      Took(path(k), path(k + 1), n, id, from, seen + k, seen + |walls|, walls[k])
  }

  lemma PathMergesOneMore(
    path: nat -> K.State, n: nat, id: nat, from: nat, seen: nat, walls: seq<int>, k: nat)
    requires Takes(path(0), n, id, from, seen + |walls|) && k < |walls|
    requires TookAt(path, n, id, from, seen, walls, k)
    requires MergedSoFar(path(0), path(k), n, id, from, seen, walls, k)
    ensures MergedSoFar(path(0), path(k + 1), n, id, from, seen, walls, k + 1)
  {
    MergesOneMore(path(0), path(k), path(k + 1), n, id, from, seen, walls, k);
  }

  lemma {:induction false} Reaches(holds: nat -> bool, n: nat)
    requires holds(0) && forall k: nat :: k < n && holds(k) ==> holds(k + 1)
    ensures holds(n)
  {
    if n > 0 {
      Reaches(holds, n - 1);
    }
  }

  lemma PathMerges(path: nat -> K.State, n: nat, id: nat, from: nat, seen: nat, walls: seq<int>)
    requires Takes(path(0), n, id, from, seen + |walls|)
    requires forall i :: 0 <= i < |walls| ==> TookAt(path, n, id, from, seen, walls, i)
    ensures MergedSoFar(path(0), path(|walls|), n, id, from, seen, walls, |walls|)
  {
    ghost var holds := (k: nat) => MergedSoFar(path(0), path(k), n, id, from, seen, walls, k);
    NothingYet(path(0), n, id, from, seen, walls);
    forall k: nat | k < |walls| && holds(k) ensures holds(k + 1) {
      PathMergesOneMore(path, n, id, from, seen, walls, k);
    }
    Reaches(holds, |walls|);
  }

  lemma DeliverUnfolds(s: K.State, n: nat, id: nat, from: nat, seen: nat, walls: seq<int>, k: nat)
    requires k < |walls|
    ensures Deliver(s, n, id, from, seen, walls[..k + 1])
            == DeliverOne(Deliver(s, n, id, from, seen, walls[..k]), n, id, from, seen + k, walls[k])
  {
    assert walls[..k + 1][..k] == walls[..k];
  }

  /** The states between the deliveries of a batch. */
  function Path(s: K.State, n: nat, id: nat, from: nat, seen: nat, walls: seq<int>): nat -> K.State {
    (k: nat) => if k <= |walls| then Deliver(s, n, id, from, seen, walls[..k]) else s
  }

  lemma TookOne(s: K.State, s': K.State, n: nat, id: nat, from: nat, index: nat, upTo: nat, wall: int)
    requires Takes(s, n, id, from, upTo) && index < upTo && s' == DeliverOne(s, n, id, from, index, wall)
    ensures Took(s, s', n, id, from, index, upTo, wall)
  {
    TakesOne(s, n, id, from, index, upTo, wall);
  }

  lemma StepTook(path: nat -> K.State, n: nat, id: nat, from: nat, seen: nat, walls: seq<int>, k: nat)
    requires k < |walls| && path(k + 1) == DeliverOne(path(k), n, id, from, seen + k, walls[k])
    ensures TookAt(path, n, id, from, seen, walls, k)
  {
    if Takes(path(k), n, id, from, seen + |walls|) {
      TookOne(path(k), path(k + 1), n, id, from, seen + k, seen + |walls|, walls[k]);
    }
  }

  lemma PathUnfolds(s: K.State, n: nat, id: nat, from: nat, seen: nat, walls: seq<int>, k: nat)
    requires k < |walls|
    ensures var path := Path(s, n, id, from, seen, walls);
            path(k + 1) == DeliverOne(path(k), n, id, from, seen + k, walls[k])
  {
    DeliverUnfolds(s, n, id, from, seen, walls, k);
  }

  lemma PathTakes(s: K.State, n: nat, id: nat, from: nat, seen: nat, walls: seq<int>, k: nat)
    requires k < |walls|
    ensures TookAt(Path(s, n, id, from, seen, walls), n, id, from, seen, walls, k)
  {
    PathUnfolds(s, n, id, from, seen, walls, k);
    StepTook(Path(s, n, id, from, seen, walls), n, id, from, seen, walls, k);
  }

  lemma PathEnds(s: K.State, n: nat, id: nat, from: nat, seen: nat, walls: seq<int>)
    ensures Path(s, n, id, from, seen, walls)(0) == s
    ensures Path(s, n, id, from, seen, walls)(|walls|) == Deliver(s, n, id, from, seen, walls)
  {
    assert walls[..|walls|] == walls;
  }

  /** The deliveries of a batch leave the node with exactly the entries merged that the
      replicator's model calls applied, in order, and nothing else changed. */
  lemma DeliveredIsApplied(s: K.State, n: nat, id: nat, from: nat, seen: nat, walls: seq<int>)
    requires Takes(s, n, id, from, seen + |walls|)
    ensures MergedSoFar(s, Deliver(s, n, id, from, seen, walls), n, id, from, seen, walls, |walls|)
  {
    var path := Path(s, n, id, from, seen, walls);
    PathEnds(s, n, id, from, seen, walls);
    forall k | 0 <= k < |walls| ensures TookAt(path, n, id, from, seen, walls, k) {
      PathTakes(s, n, id, from, seen, walls, k);
    }
    PathMerges(path, n, id, from, seen, walls);
  }

  lemma NothingYet(s: K.State, n: nat, id: nat, from: nat, seen: nat, walls: seq<int>)
    requires Takes(s, n, id, from, seen + |walls|)
    ensures MergedSoFar(s, s, n, id, from, seen, walls, 0)
  {
  }

  lemma InTimeIsApplied(stamps: Stamps, seen: nat, walls: seq<int>, offset: int)
    requires InTime(stamps, seen + 1, walls, offset)
    ensures Applied(stamps, seen, walls, offset, |walls|) == R.Run(seen + 1, |walls|)
  {
    var f := R.Flight(seen, seen + 1, |walls|);
    WholeExactlyInTime(f, stamps, walls, offset);
    R.WholeIsKept(f, R.Arrived(Accepted(stamps, seen + 1, walls, offset)), |walls|);
  }

  lemma {:induction false} RunIsInTime(
    walls: seq<int>, offsets: seq<int>, steps: seq<K.Step>, n: nat, from: nat, seen: nat, times: seq<int>)
    requires |walls| == |offsets| && K.Short(K.Run(K.Initial(walls, offsets), steps))
    requires var s := K.Run(K.Initial(walls, offsets), steps);
             && n < |s.clock.offsets| && from < |s.replicas| && seen + |times| <= |s.replicas[from].log|
             && forall i :: 0 <= i < |times| ==> NoneAfter(s.clock.readings, times[i] + s.clock.offsets[n])
    ensures var s := K.Run(K.Initial(walls, offsets), steps);
            InTime(StampsOf(s.replicas[from].log), seen + 1, times, s.clock.offsets[n])
  {
    forall i | 0 <= i < |times|
      ensures var s := K.Run(K.Initial(walls, offsets), steps);
              StampsOf(s.replicas[from].log)(seen + 1 + i).physical <= times[i] + s.clock.offsets[n]
    {
      NothingRefused(walls, offsets, steps, n, times[i], from, seen + i);
    }
  }

  /** Over every run of the cluster, a batch of any log delivered to a node whose wall clock plus
      offset is at no delivery behind a reading taken before the batch is merged whole: the
      replicator's model calls all of it applied, and the node merges all of it in order. */
  lemma CurrentPeerMergesAll(
    walls: seq<int>, offsets: seq<int>, steps: seq<K.Step>, n: nat, id: nat, from: nat, seen: nat, times: seq<int>)
    requires |walls| == |offsets| && K.Short(K.Run(K.Initial(walls, offsets), steps))
    requires var s := K.Run(K.Initial(walls, offsets), steps);
             && n < |s.replicas| && from < |s.replicas| && n < |s.clock.offsets|
             && id !in s.replicas[n].calls && seen + |times| <= |s.replicas[from].log|
             && forall i :: 0 <= i < |times| ==> NoneAfter(s.clock.readings, times[i] + s.clock.offsets[n])
    ensures var s := K.Run(K.Initial(walls, offsets), steps);
            var log, us := s.replicas[from].log, R.Run(seen + 1, |times|);
            && Applied(StampsOf(log), seen, times, s.clock.offsets[n], |times|) == us
            && R.Within(us, |log|) && SameElsewhere(s, Deliver(s, n, id, from, seen, times), n)
            && Deliver(s, n, id, from, seen, times).replicas[n] == MergeAll(s.replicas[n], log, us)
  {
    var s := K.Run(K.Initial(walls, offsets), steps);
    K.RunClocked(walls, offsets, steps);
    RunIsInTime(walls, offsets, steps, n, from, seen, times);
    InTimeIsApplied(StampsOf(s.replicas[from].log), seen, times, s.clock.offsets[n]);
    DeliveredIsApplied(s, n, id, from, seen, times);
  }
}
