/** Any number of hybrid logical clocks that exchange timestamps. A run is a sequence of
    `Now` and `Update` calls in any interleaving, with arbitrary wall readings: they may
    jump, stand still or move backward. */
module Causality {
  import opened Wrappers
  import opened Clock

  type NodeId = nat

  /** A clock event that produced a timestamp: a `Now`, or an accepted `Update` with the
      timestamp of the earlier event `cause`. */
  datatype Event = Event(node: NodeId, ts: Timestamp, cause: Option<nat>)

  /** A wall-clock reading taken by a node. */
  datatype Reading = Reading(node: NodeId, wall: int)

  /** The clocks of the cluster, with the events and wall readings so far as history. */
  datatype System = System(
    clocks: seq<Timestamp>, offsets: seq<int>, readings: seq<Reading>, events: seq<Event>)

  datatype Action =
    | Issue(node: NodeId, wall: int)
    | Receive(node: NodeId, source: nat, wall: int)

  function Initial(walls: seq<int>, offsets: seq<int>): System
    requires |walls| == |offsets|
  {
    System(seq(|walls|, i requires 0 <= i < |walls| => Timestamp(walls[i], 0)), offsets,
           seq(|walls|, i requires 0 <= i < |walls| => Reading(i, walls[i])), [])
  }

  predicate WellFormed(s: System) { |s.clocks| == |s.offsets| }

  /** Timestamps on the wire are those issued by `Now`. */
  predicate Enabled(s: System, a: Action) {
    && a.node < |s.clocks| == |s.offsets|
    && (a.Receive? ==> a.source < |s.events| && s.events[a.source].cause.None?)
  }

  function Record(s: System, n: NodeId, wall: int, ts: Timestamp, cause: Option<nat>): System
    requires n < |s.clocks|
  {
    s.(clocks := s.clocks[n := ts], readings := s.readings + [Reading(n, wall)],
       events := s.events + [Event(n, ts, cause)])
  }

  /** One clock operation; an action that is not enabled changes nothing. */
  function Next(s: System, a: Action): System {
    if !Enabled(s, a) then s
    else match a
      case Issue(n, wall) => Record(s, n, wall, Tick(s.clocks[n], wall), None)
      case Receive(n, source, wall) =>
        var remote := s.events[source].ts;
        if ClockSmash(remote, wall, s.offsets[n]) then
          s.(readings := s.readings + [Reading(n, wall)])
        else
          Record(s, n, wall, Merge(s.clocks[n], remote, wall), Some(source))
  }

  function Run(s: System, actions: seq<Action>): System {
    if actions == [] then s
    else Next(Run(s, actions[..|actions| - 1]), actions[|actions| - 1])
  }

  // ---------------------------------------------------------------- causality

  /** Event i directly precedes event j: on the same node, or j received i's timestamp. */
  ghost predicate Direct(events: seq<Event>, i: nat, j: nat) {
    i < j < |events| && (events[i].node == events[j].node || events[j].cause == Some(i))
  }

  ghost predicate HappenedBefore(events: seq<Event>, i: nat, j: nat)
    decreases j
  {
    || Direct(events, i, j)
    || exists k :: i < k < j && HappenedBefore(events, i, k) && Direct(events, k, j)
  }

  ghost predicate DirectIncreases(events: seq<Event>) {
    forall i: nat, j: nat :: Direct(events, i, j) ==> After(events[j].ts, events[i].ts)
  }

  /** No event of a node is ahead of the node's clock. */
  ghost predicate ClocksLead(s: System) {
    forall i :: 0 <= i < |s.events| ==>
      s.events[i].node < |s.clocks| && GreaterOrEqual(s.clocks[s.events[i].node], s.events[i].ts)
  }

  // ---------------------------------------------------------------- bounds

  /** The number of clock events that carry physical time p. */
  ghost function Carrying(events: seq<Event>, p: int): nat {
    if events == [] then 0
    else
      var last := |events| - 1;
      Carrying(events[..last], p) + if events[last].ts.physical == p then 1 else 0
  }

  ghost predicate LogicalBounded(events: seq<Event>, ts: Timestamp) {
    0 <= ts.logical <= Carrying(events, ts.physical)
  }

  ghost predicate LogicalBounds(s: System) {
    && (forall n :: 0 <= n < |s.clocks| ==> LogicalBounded(s.events, s.clocks[n]))
    && (forall i :: 0 <= i < |s.events| ==> LogicalBounded(s.events, s.events[i].ts))
  }

  /** The physical time p was read from the wall clock of some node. */
  ghost predicate WasRead(readings: seq<Reading>, p: int) {
    exists i :: 0 <= i < |readings| && readings[i].wall == p
  }

  ghost predicate Provenance(s: System) {
    && (forall n :: 0 <= n < |s.clocks| ==> WasRead(s.readings, s.clocks[n].physical))
    && (forall i :: 0 <= i < |s.events| ==> WasRead(s.readings, s.events[i].ts.physical))
  }

  /** Node n itself read a wall time that p exceeds by no more than its allowed offset. */
  ghost predicate WithinDrift(readings: seq<Reading>, n: NodeId, p: int, offset: int) {
    exists i :: 0 <= i < |readings| && readings[i].node == n && p <= readings[i].wall + Max(0, offset)
  }

  ghost predicate DriftBounds(s: System)
    requires WellFormed(s)
  {
    forall n :: 0 <= n < |s.clocks| ==> WithinDrift(s.readings, n, s.clocks[n].physical, s.offsets[n])
  }

  ghost predicate Inv(s: System) {
    && WellFormed(s)
    && DirectIncreases(s.events)
    && ClocksLead(s)
    && LogicalBounds(s)
    && Provenance(s)
    && DriftBounds(s)
  }

  // ---------------------------------------------------------------- proofs

  lemma {:induction false} CarryingBounded(events: seq<Event>, p: int)
    ensures Carrying(events, p) <= |events|
  {
    if events != [] {
      CarryingBounded(events[..|events| - 1], p);
    }
  }

  /** Fewer than 2^31 clock events leave no room for an int32 wrap-around. */
  lemma NoWrap(s: System, ts: Timestamp)
    requires LogicalBounded(s.events, ts) && |s.events| < MAX_INT32
    ensures 0 <= ts.logical < MAX_INT32
  {
    CarryingBounded(s.events, ts.physical);
  }

  lemma RecordKeepsOrder(s: System, n: NodeId, wall: int, ts: Timestamp, cause: Option<nat>)
    requires DirectIncreases(s.events) && ClocksLead(s) && n < |s.clocks|
    requires After(ts, s.clocks[n])
    requires cause.Some? ==> cause.value < |s.events| && After(ts, s.events[cause.value].ts)
    ensures var s' := Record(s, n, wall, ts, cause); DirectIncreases(s'.events) && ClocksLead(s')
  {
  }

  lemma RecordKeepsBounds(s: System, n: NodeId, wall: int, ts: Timestamp, cause: Option<nat>)
    requires LogicalBounds(s) && n < |s.clocks|
    requires 0 <= ts.logical <= Carrying(s.events, ts.physical) + 1
    ensures LogicalBounds(Record(s, n, wall, ts, cause))
  {
  }

  lemma ReadingsGrow(s: System, n: NodeId, wall: int)
    requires WellFormed(s) && Provenance(s) && DriftBounds(s)
    ensures var s' := s.(readings := s.readings + [Reading(n, wall)]);
            Provenance(s') && DriftBounds(s') && WasRead(s'.readings, wall)
  {
    var more := s.readings + [Reading(n, wall)];
    forall i | 0 <= i < |s.readings| ensures more[i] == s.readings[i] {}
    forall p | WasRead(s.readings, p) ensures WasRead(more, p) {
      var i :| 0 <= i < |s.readings| && s.readings[i].wall == p;
      assert more[i].wall == p;
    }
    forall m | 0 <= m < |s.clocks| ensures WithinDrift(more, m, s.clocks[m].physical, s.offsets[m]) {
      assert WithinDrift(s.readings, m, s.clocks[m].physical, s.offsets[m]);
      var i :| 0 <= i < |s.readings| && s.readings[i].node == m
               && s.clocks[m].physical <= s.readings[i].wall + Max(0, s.offsets[m]);
      assert more[i].node == m;
    }
    assert more[|s.readings|] == Reading(n, wall);
  }

  /** A recorded timestamp takes its physical time from the wall, from the node's own
      clock, or from an event it received within the offset. */
  lemma RecordKeepsProvenance(s: System, n: NodeId, wall: int, ts: Timestamp, cause: Option<nat>)
    requires WellFormed(s) && Provenance(s) && DriftBounds(s) && n < |s.clocks|
    requires
      || ts.physical == wall
      || ts.physical == s.clocks[n].physical
      || exists i :: 0 <= i < |s.events| && ts.physical == s.events[i].ts.physical <= wall + s.offsets[n]
    ensures var s' := Record(s, n, wall, ts, cause); Provenance(s') && DriftBounds(s')
  {
    ReadingsGrow(s, n, wall);
    var s' := Record(s, n, wall, ts, cause);
    assert s'.readings[|s.readings|] == Reading(n, wall);
    if ts.physical != s.clocks[n].physical {
      assert WithinDrift(s'.readings, n, ts.physical, s.offsets[n]);
    }
  }

  lemma NextKeepsInv(s: System, a: Action)
    requires Inv(s) && |Next(s, a).events| <= MAX_INT32
    ensures Inv(Next(s, a))
  {
    if Enabled(s, a) {
      match a
      case Issue(n, wall) =>
        NoWrap(s, s.clocks[n]);
        var ts := Tick(s.clocks[n], wall);
        RecordKeepsOrder(s, n, wall, ts, None);
        RecordKeepsBounds(s, n, wall, ts, None);
        RecordKeepsProvenance(s, n, wall, ts, None);
      case Receive(n, source, wall) =>
        var remote := s.events[source].ts;
        if ClockSmash(remote, wall, s.offsets[n]) {
          ReadingsGrow(s, n, wall);
        } else {
          NoWrap(s, s.clocks[n]);
          NoWrap(s, remote);
          var ts := Merge(s.clocks[n], remote, wall);
          RecordKeepsOrder(s, n, wall, ts, Some(source));
          RecordKeepsBounds(s, n, wall, ts, Some(source));
          RecordKeepsProvenance(s, n, wall, ts, Some(source));
        }
    }
  }

  /** No clock operation moves any clock backward, and one that issues or accepts a
      timestamp moves its own clock past its old reading and past that timestamp. */
  lemma ClocksAdvance(s: System, a: Action)
    requires Inv(s) && |Next(s, a).events| <= MAX_INT32
    ensures forall n :: 0 <= n < |s.clocks| ==> GreaterOrEqual(Next(s, a).clocks[n], s.clocks[n])
    ensures |Next(s, a).events| > |s.events| ==> After(Next(s, a).clocks[a.node], s.clocks[a.node])
    ensures a.Receive? && |Next(s, a).events| > |s.events| ==>
              After(Next(s, a).clocks[a.node], s.events[a.source].ts)
  {
    if Enabled(s, a) {
      if |Next(s, a).events| > |s.events| {
        NoWrap(s, s.clocks[a.node]);
        if a.Receive? {
          NoWrap(s, s.events[a.source].ts);
        }
      }
    }
  }

  lemma InitialInv(walls: seq<int>, offsets: seq<int>)
    requires |walls| == |offsets|
    ensures Inv(Initial(walls, offsets))
  {
    var s := Initial(walls, offsets);
    forall n | 0 <= n < |walls|
      ensures WasRead(s.readings, s.clocks[n].physical)
      ensures WithinDrift(s.readings, n, s.clocks[n].physical, s.offsets[n])
    {
      assert s.readings[n] == Reading(n, walls[n]);
    }
  }

  lemma EventsGrow(s: System, a: Action)
    ensures |s.events| <= |Next(s, a).events|
  {
  }

  /** Every run of fewer than 2^31 clock events keeps causal order, the logical bound,
      the provenance of physical times and the drift bound. */
  lemma {:induction false} RunKeepsInv(walls: seq<int>, offsets: seq<int>, actions: seq<Action>)
    requires |walls| == |offsets|
    requires |Run(Initial(walls, offsets), actions).events| <= MAX_INT32
    ensures Inv(Run(Initial(walls, offsets), actions))
  {
    if actions == [] {
      InitialInv(walls, offsets);
    } else {
      var before := actions[..|actions| - 1];
      EventsGrow(Run(Initial(walls, offsets), before), actions[|actions| - 1]);
      RunKeepsInv(walls, offsets, before);
      NextKeepsInv(Run(Initial(walls, offsets), before), actions[|actions| - 1]);
    }
  }

  lemma {:induction false} HappenedBeforeIncreases(events: seq<Event>, i: nat, j: nat)
    requires DirectIncreases(events) && HappenedBefore(events, i, j)
    ensures i < j < |events| && After(events[j].ts, events[i].ts)
    decreases j
  {
    if !Direct(events, i, j) {
      var k :| i < k < j && HappenedBefore(events, i, k) && Direct(events, k, j);
      HappenedBeforeIncreases(events, i, k);
    }
  }

  /** Causality across the cluster: over every run, an event that happened before another
      carries a strictly smaller timestamp. */
  lemma CausalityHolds(walls: seq<int>, offsets: seq<int>, actions: seq<Action>, i: nat, j: nat)
    requires |walls| == |offsets|
    requires var events := Run(Initial(walls, offsets), actions).events;
             |events| <= MAX_INT32 && HappenedBefore(events, i, j)
    ensures var events := Run(Initial(walls, offsets), actions).events;
            i < j < |events| && After(events[j].ts, events[i].ts)
  {
    RunKeepsInv(walls, offsets, actions);
    HappenedBeforeIncreases(Run(Initial(walls, offsets), actions).events, i, j);
  }

  /** Over every run, each clock operation leaves the least timestamp that it may: newer than
      the clock was, not behind the wall clock, and, when it accepts a timestamp, newer than
      that one. */
  lemma RunMovesLeast(walls: seq<int>, offsets: seq<int>, actions: seq<Action>, a: Action, t: Timestamp)
    requires |walls| == |offsets|
    requires var s := Run(Initial(walls, offsets), actions);
             && Enabled(s, a) && |Next(s, a).events| <= MAX_INT32 && |Next(s, a).events| > |s.events|
    ensures var s := Run(Initial(walls, offsets), actions);
            var c, c' := s.clocks[a.node], Next(s, a).clocks[a.node];
            && Admits(c, a.wall, c') && (a.Receive? ==> After(c', s.events[a.source].ts))
            && (Admits(c, a.wall, t) && (a.Receive? ==> After(t, s.events[a.source].ts)) ==> GreaterOrEqual(t, c'))
  {
    var s := Run(Initial(walls, offsets), actions);
    RunKeepsInv(walls, offsets, actions);
    NoWrap(s, s.clocks[a.node]);
    match a
    case Issue(n, wall) =>
      TickIsLeast(s.clocks[n], wall, t);
    case Receive(n, source, wall) =>
      NoWrap(s, s.events[source].ts);
      MergeIsLeast(s.clocks[n], s.events[source].ts, wall, t);
  }
}
