/** A cluster of replicas. Every call of the public API and every remote entry is split
    into the steps between which other calls may run: the clock reading, the store write,
    the read-back, the log append; the clock update and the merge. Entries may be
    delivered to any node in any order and any number of times. */
module Cluster {
  import opened Wrappers
  import opened Clock
  import opened Registers
  import C = Causality

  type NodeId = C.NodeId

  /** A delta-log entry. Metric and window entries only move clocks here. */
  datatype Entry =
    | RegisterEntry(w: Write)
    | CountEntry(at: Timestamp, key: Key, node: NodeId, total: int)
    | OtherEntry(at: Timestamp)
  {
    function Stamp(): Timestamp {
      if RegisterEntry? then w.ts else at
    }
  }

  /** A log entry with the clock event that stamped it. */
  datatype Logged = Logged(entry: Entry, event: nat)

  /** A call in flight, by what it has done so far; it may stop at any point. `seen` is
      history: how many writes the store had merged when the timestamp was taken. */
  datatype Call =
    | Stamped(w: Write, event: nat, seen: nat)  // Set, Delete: has a timestamp, not yet stored
    | Stored(w: Write, event: nat)              // Set, Delete: stored, not yet in the log
    | Counted(key: Key)                         // IncrementBy: has incremented the store
    | ReadBack(key: Key, total: int)            // IncrementBy: has read its partial count back
    | Ready(entry: Entry, event: nat)           // IncrementBy, metric, window: stamped, not yet in the log
    | Accepted(entry: Entry)                    // applyRemoteEntry: clock updated, not yet merged

  /** `merged` and `received` are history: the register writes and the count entries that
      reached this store, the latter from remote logs. */
  datatype Replica = Replica(
    cache: Cache, counts: map<(Key, NodeId), int>, aggregates: map<Key, int>,
    calls: map<nat, Call>, log: seq<Logged>,
    merged: seq<Write>, received: set<Entry>)

  datatype Intent = Set(key: Key, value: Value, ttl: int) | Delete(key: Key) | Other

  /** A local Set or Delete, as it was called and as it was stamped, with the writes its node
      had merged by then. */
  datatype Issued = Issued(node: NodeId, intent: Intent, w: Write, seen: seq<Write>)

  datatype State = State(clock: C.System, replicas: seq<Replica>, issued: seq<Issued>)

  datatype Step =
    | Begin(node: NodeId, id: nat, intent: Intent, wall: int)
    | Commit(node: NodeId, id: nat)
    | Count(node: NodeId, id: nat, key: Key, delta: int)
    | ReadCount(node: NodeId, id: nat)
    | StampCount(node: NodeId, id: nat, wall: int)
    | Publish(node: NodeId, id: nat)
    | Receive(node: NodeId, id: nat, from: NodeId, index: nat, wall: int)
    | Merge(node: NodeId, id: nat)

  function Initial(walls: seq<int>, offsets: seq<int>): State
    requires |walls| == |offsets|
  {
    State(C.Initial(walls, offsets),
          seq(|walls|, i => Replica(map[], map[], map[], map[], [], [], {})), [])
  }

  // ---------------------------------------------------------------- one replica

  function Partial(r: Replica, k: Key, n: NodeId): int {
    if (k, n) in r.counts then r.counts[(k, n)] else 0
  }

  function Aggregate(r: Replica, k: Key): int {
    if k in r.aggregates then r.aggregates[k] else 0
  }

  function AddCount(r: Replica, k: Key, n: NodeId, delta: int): Replica {
    r.(counts := r.counts[(k, n) := Partial(r, k, n) + delta],
       aggregates := r.aggregates[k := Aggregate(r, k) + delta])
  }

  /** `setNodeCount` only ever raises a partial count. */
  function RaiseCount(r: Replica, k: Key, n: NodeId, total: int): Replica {
    if total > Partial(r, k, n) then AddCount(r, k, n, total - Partial(r, k, n)) else r
  }

  function MergeWrite(r: Replica, w: Write): Replica {
    r.(cache := Apply(r.cache, w), merged := r.merged + [w])
  }

  function MergeEntry(r: Replica, e: Entry): Replica {
    match e
    case RegisterEntry(w) => MergeWrite(r, w)
    case CountEntry(_, k, n, total) => RaiseCount(r, k, n, total).(received := r.received + {e})
    case OtherEntry(_) => r
  }

  function Stamp(intent: Intent, ts: Timestamp): Write
    requires !intent.Other?
  {
    match intent
    case Set(k, v, ttl) => Put(k, v, ts, ttl)
    case Delete(k) => Remove(k, ts)
  }

  // ---------------------------------------------------------------- the cluster

  predicate WellFormed(s: State) {
    |s.replicas| == |s.clock.clocks| == |s.clock.offsets|
  }

  predicate Starts(step: Step) { step.Begin? || step.Count? || step.Receive? }

  predicate Enabled(s: State, step: Step) {
    && WellFormed(s)
    && step.node < |s.replicas|
    && var calls := s.replicas[step.node].calls;
    && (Starts(step) <==> step.id !in calls)
    && match step
       case Begin(_, _, _, _) => true
       case Count(_, _, _, _) => true
       case Commit(_, id) => calls[id].Stamped?
       case ReadCount(_, id) => calls[id].Counted?
       case StampCount(_, id, _) => calls[id].ReadBack?
       case Publish(_, id) => calls[id].Stored? || calls[id].Ready?
       case Receive(_, _, from, index, _) =>
         && from < |s.replicas| && index < |s.replicas[from].log|
         && C.Enabled(s.clock, C.Receive(step.node, s.replicas[from].log[index].event, 0))
       case Merge(_, id) => calls[id].Accepted?
  }

  /** The clock operation inside a step, if there is one. */
  function ClockAction(s: State, step: Step): Option<C.Action>
    requires Enabled(s, step)
  {
    match step
    case Begin(n, _, _, wall) => Some(C.Issue(n, wall))
    case StampCount(n, _, wall) => Some(C.Issue(n, wall))
    case Receive(n, _, from, index, wall) =>
      Some(C.Receive(n, s.replicas[from].log[index].event, wall))
    case _ => None
  }

  function NextClock(s: State, step: Step): C.System
    requires Enabled(s, step)
  {
    var a := ClockAction(s, step);
    if a.Some? then C.Next(s.clock, a.value) else s.clock
  }

  function Enter(r: Replica, id: nat, c: Call): Replica {
    r.(calls := r.calls[id := c])
  }

  function Leave(r: Replica, id: nat): Replica {
    r.(calls := r.calls - {id})
  }

  function Append(r: Replica, e: Entry, event: nat): Replica {
    r.(log := r.log + [Logged(e, event)])
  }

  /** What a step does to its own replica; no step touches another replica. */
  function NextReplica(s: State, step: Step): Replica
    requires Enabled(s, step)
  {
    var r := s.replicas[step.node];
    var ts := NextClock(s, step).clocks[step.node];
    var event := |s.clock.events|;
    match step
    case Begin(_, id, intent, _) =>
      Enter(r, id,
            if intent.Other? then Ready(OtherEntry(ts), event)
            else Stamped(Stamp(intent, ts), event, |r.merged|))
    case Commit(_, id) =>
      Enter(MergeWrite(r, r.calls[id].w), id, Stored(r.calls[id].w, r.calls[id].event))
    case Count(n, id, k, delta) =>
      Enter(AddCount(r, k, n, delta), id, Counted(k))
    case ReadCount(n, id) =>
      Enter(r, id, ReadBack(r.calls[id].key, Partial(r, r.calls[id].key, n)))
    case StampCount(n, id, _) =>
      Enter(r, id, Ready(CountEntry(ts, r.calls[id].key, n, r.calls[id].total), event))
    case Publish(_, id) =>
      var c := r.calls[id];
      Append(Leave(r, id), if c.Stored? then RegisterEntry(Wire(c.w)) else c.entry, c.event)
    case Receive(n, id, from, index, wall) =>
      var e := s.replicas[from].log[index].entry;
      if ClockSmash(e.Stamp(), wall, s.clock.offsets[n]) then r
      else Enter(r, id, Accepted(e))
    case Merge(_, id) =>
      MergeEntry(Leave(r, id), r.calls[id].entry)
  }

  function NextIssued(s: State, step: Step): seq<Issued>
    requires Enabled(s, step)
  {
    if step.Begin? && !step.intent.Other? then
      var w := Stamp(step.intent, NextClock(s, step).clocks[step.node]);
      s.issued + [Issued(step.node, step.intent, w, s.replicas[step.node].merged)]
    else s.issued
  }

  /** A step that is not enabled changes nothing. */
  function Next(s: State, step: Step): State {
    if !Enabled(s, step) then s
    else State(NextClock(s, step), s.replicas[step.node := NextReplica(s, step)], NextIssued(s, step))
  }

  function Run(s: State, steps: seq<Step>): State {
    if steps == [] then s
    else Next(Run(s, steps[..|steps| - 1]), steps[|steps| - 1])
  }

  /** The runs considered: fewer than 2^31 clock events, so no logical counter wraps. */
  predicate Short(s: State) { |s.clock.events| <= MAX_INT32 }

  lemma EventsGrow(s: State, step: Step)
    ensures |s.clock.events| <= |Next(s, step).clock.events|
  {
  }

  // ---------------------------------------------------------------- clock links

  ghost predicate IssuedAt(clock: C.System, event: nat, ts: Timestamp) {
    event < |clock.events| && clock.events[event].ts == ts && clock.events[event].cause.None?
  }

  ghost predicate CallLinked(clock: C.System, c: Call) {
    match c
    case Stamped(w, event, _) => IssuedAt(clock, event, w.ts)
    case Stored(w, event) => IssuedAt(clock, event, w.ts)
    case Ready(e, event) => IssuedAt(clock, event, e.Stamp())
    case _ => true
  }

  ghost predicate ReplicaLinked(clock: C.System, r: Replica) {
    && (forall id :: id in r.calls ==> CallLinked(clock, r.calls[id]))
    && (forall i :: 0 <= i < |r.log| ==> IssuedAt(clock, r.log[i].event, r.log[i].entry.Stamp()))
  }

  /** Every timestamp that a node may put on the wire is one its clock issued. */
  ghost predicate Linked(s: State) {
    forall n :: 0 <= n < |s.replicas| ==> ReplicaLinked(s.clock, s.replicas[n])
  }

  ghost predicate Clocked(s: State) {
    WellFormed(s) && C.Inv(s.clock) && Linked(s)
  }

  lemma LinksPersist(s: State, step: Step, r: Replica)
    requires Enabled(s, step) && ReplicaLinked(s.clock, r)
    ensures ReplicaLinked(NextClock(s, step), r)
  {
  }

  lemma NextLinked(s: State, step: Step)
    requires Enabled(s, step) && Linked(s)
    ensures Linked(Next(s, step))
  {
    forall n | 0 <= n < |s.replicas| ensures ReplicaLinked(NextClock(s, step), Next(s, step).replicas[n]) {
      LinksPersist(s, step, s.replicas[n]);
    }
  }

  lemma NextClocked(s: State, step: Step)
    requires Clocked(s) && Short(Next(s, step))
    ensures Clocked(Next(s, step))
  {
    if Enabled(s, step) {
      NextLinked(s, step);
      var a := ClockAction(s, step);
      if a.Some? {
        C.NextKeepsInv(s.clock, a.value);
      }
    }
  }

  lemma InitialClocked(walls: seq<int>, offsets: seq<int>)
    requires |walls| == |offsets|
    ensures Clocked(Initial(walls, offsets))
  {
    C.InitialInv(walls, offsets);
  }

  lemma {:induction false} RunClocked(walls: seq<int>, offsets: seq<int>, steps: seq<Step>)
    requires |walls| == |offsets| && Short(Run(Initial(walls, offsets), steps))
    ensures Clocked(Run(Initial(walls, offsets), steps))
  {
    if steps == [] {
      InitialClocked(walls, offsets);
    } else {
      var before := Run(Initial(walls, offsets), steps[..|steps| - 1]);
      EventsGrow(before, steps[|steps| - 1]);
      RunClocked(walls, offsets, steps[..|steps| - 1]);
      NextClocked(before, steps[|steps| - 1]);
    }
  }
}
