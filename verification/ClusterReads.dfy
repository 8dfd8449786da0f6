/** What reads answer in every run of the cluster: at every node, at every time, what the
    call behind the register asked for. */
module ClusterReads {
  import opened Wrappers
  import opened Clock
  import opened Registers
  import opened Cluster

  // ---------------------------------------------------------------- what a call asks for

  function KeyOf(intent: Intent): Key
    requires !intent.Other?
  {
    intent.key
  }

  /** A TTL crosses the wire in whole milliseconds, and none is left of a shorter one. */
  function OnPeer(ttl: int): int { if ttl <= 0 then ttl else ttl - ttl % 1_000_000 }

  /** What a call stamped at physical time `at` asks a read of its key to answer, at its own
      node or at a peer: a Set its value until its TTL is up, a Delete nothing. */
  function Answer(intent: Intent, at: int, peer: bool, now: int): Option<Value>
    requires !intent.Other?
  {
    match intent
    case Set(_, value, ttl) =>
      if Lasts(at, if peer then OnPeer(ttl) else ttl, now) then Some(value) else None
    case Delete(_) => None
  }

  lemma StampedAnswers(intent: Intent, ts: Timestamp, now: int)
    requires !intent.Other?
    ensures var w := Stamp(intent, ts);
            && w.key == KeyOf(intent) && w.ts == ts
            && Asked(w, now) == Answer(intent, ts.physical, false, now)
            && Asked(Wire(w), now) == Answer(intent, ts.physical, true, now)
  {
  }

  /** The call and the write it became agree on the key and on what reads answer. */
  ghost predicate Means(call: Issued) {
    && !call.intent.Other? && call.w.key == KeyOf(call.intent)
    && (forall now :: Asked(call.w, now) == Answer(call.intent, call.w.ts.physical, false, now))
    && (forall now :: Asked(Wire(call.w), now) == Answer(call.intent, call.w.ts.physical, true, now))
  }

  // ---------------------------------------------------------------- every write has a call

  /** The write is that of a call at node n, or what a peer is sent of a call anywhere. */
  predicate Behind(call: Issued, n: NodeId, peer: bool, w: Write) {
    if peer then Wire(call.w) == w else call.node == n && call.w == w
  }

  ghost predicate Sourced(issued: seq<Issued>, n: NodeId, peer: bool, w: Write) {
    exists i :: 0 <= i < |issued| && Behind(issued[i], n, peer, w)
  }

  ghost predicate EntrySourced(issued: seq<Issued>, n: NodeId, e: Entry) {
    e.RegisterEntry? ==> Sourced(issued, n, true, e.w)
  }

  ghost predicate CallSourced(issued: seq<Issued>, n: NodeId, c: Call) {
    match c
    case Stamped(w, _, _) => Sourced(issued, n, false, w)
    case Stored(w, _) => Sourced(issued, n, false, w)
    case Ready(e, _) => !e.RegisterEntry?
    case Accepted(e) => EntrySourced(issued, n, e)
    case _ => true
  }

  ghost predicate MergedSourced(issued: seq<Issued>, n: NodeId, w: Write) {
    Sourced(issued, n, false, w) || Sourced(issued, n, true, w)
  }

  ghost predicate ReplicaSourced(issued: seq<Issued>, n: NodeId, r: Replica) {
    && r.cache == Replay(r.merged)
    && (forall id :: id in r.calls ==> CallSourced(issued, n, r.calls[id]))
    && (forall i :: 0 <= i < |r.log| ==> EntrySourced(issued, n, r.log[i].entry))
    && (forall i :: 0 <= i < |r.merged| ==> MergedSourced(issued, n, r.merged[i]))
  }

  ghost predicate AllSourced(s: State) {
    && WellFormed(s)
    && (forall i :: 0 <= i < |s.issued| ==> Means(s.issued[i]))
    && (forall n :: 0 <= n < |s.replicas| ==> ReplicaSourced(s.issued, n, s.replicas[n]))
  }

  lemma SourcedLater(issued: seq<Issued>, more: seq<Issued>, n: NodeId, peer: bool, w: Write)
    requires issued <= more && Sourced(issued, n, peer, w)
    ensures Sourced(more, n, peer, w)
  {
    var i :| 0 <= i < |issued| && Behind(issued[i], n, peer, w);
    assert Behind(more[i], n, peer, w);
  }

  lemma CallSourcedLater(issued: seq<Issued>, more: seq<Issued>, n: NodeId, c: Call)
    requires issued <= more && CallSourced(issued, n, c)
    ensures CallSourced(more, n, c)
  {
    match c
    case Stamped(w, _, _) => SourcedLater(issued, more, n, false, w);
    case Stored(w, _) => SourcedLater(issued, more, n, false, w);
    case Accepted(e) => if e.RegisterEntry? { SourcedLater(issued, more, n, true, e.w); }
    case _ =>
  }

  lemma ReplicaSourcedLater(issued: seq<Issued>, more: seq<Issued>, n: NodeId, r: Replica)
    requires issued <= more && ReplicaSourced(issued, n, r)
    ensures ReplicaSourced(more, n, r)
  {
    forall id | id in r.calls ensures CallSourced(more, n, r.calls[id]) {
      CallSourcedLater(issued, more, n, r.calls[id]);
    }
    forall i | 0 <= i < |r.log| ensures EntrySourced(more, n, r.log[i].entry) {
      if r.log[i].entry.RegisterEntry? {
        SourcedLater(issued, more, n, true, r.log[i].entry.w);
      }
    }
    forall i | 0 <= i < |r.merged| ensures MergedSourced(more, n, r.merged[i]) {
      var peer := !Sourced(issued, n, false, r.merged[i]);
      SourcedLater(issued, more, n, peer, r.merged[i]);
    }
  }

  lemma EnterSourced(issued: seq<Issued>, n: NodeId, r: Replica, id: nat, c: Call)
    requires ReplicaSourced(issued, n, r) && CallSourced(issued, n, c)
    ensures ReplicaSourced(issued, n, Enter(r, id, c))
  {
  }

  lemma LeaveSourced(issued: seq<Issued>, n: NodeId, r: Replica, id: nat)
    requires ReplicaSourced(issued, n, r)
    ensures ReplicaSourced(issued, n, Leave(r, id))
  {
  }

  lemma MergeWriteSourced(issued: seq<Issued>, n: NodeId, r: Replica, w: Write)
    requires ReplicaSourced(issued, n, r) && MergedSourced(issued, n, w)
    ensures ReplicaSourced(issued, n, MergeWrite(r, w))
  {
    var more := r.merged + [w];
    assert more[..|r.merged|] == r.merged;
  }

  lemma AppendSourced(issued: seq<Issued>, n: NodeId, r: Replica, e: Entry, event: nat)
    requires ReplicaSourced(issued, n, r) && EntrySourced(issued, n, e)
    ensures ReplicaSourced(issued, n, Append(r, e, event))
  {
  }

  lemma MergeEntrySourced(issued: seq<Issued>, n: NodeId, r: Replica, e: Entry)
    requires ReplicaSourced(issued, n, r) && EntrySourced(issued, n, e)
    ensures ReplicaSourced(issued, n, MergeEntry(r, e))
  {
    if e.RegisterEntry? {
      MergeWriteSourced(issued, n, r, e.w);
    }
  }

  lemma BeginSourced(s: State, step: Step)
    requires AllSourced(s) && Enabled(s, step) && step.Begin?
    ensures ReplicaSourced(NextIssued(s, step), step.node, NextReplica(s, step))
    ensures forall i :: 0 <= i < |NextIssued(s, step)| ==> Means(NextIssued(s, step)[i])
  {
    var n, r, issued := step.node, s.replicas[step.node], NextIssued(s, step);
    var ts := NextClock(s, step).clocks[n];
    ReplicaSourcedLater(s.issued, issued, n, r);
    if step.intent.Other? {
      EnterSourced(issued, n, r, step.id, Ready(OtherEntry(ts), |s.clock.events|));
    } else {
      var w := Stamp(step.intent, ts);
      assert Behind(issued[|s.issued|], n, false, w);
      EnterSourced(issued, n, r, step.id, Stamped(w, |s.clock.events|, |r.merged|));
      forall now ensures Asked(w, now) == Answer(step.intent, ts.physical, false, now)
      {
        StampedAnswers(step.intent, ts, now);
      }
      forall now ensures Asked(Wire(w), now) == Answer(step.intent, ts.physical, true, now)
      {
        StampedAnswers(step.intent, ts, now);
      }
      assert w.key == KeyOf(step.intent) && w.ts == ts;
      assert Means(issued[|s.issued|]);
    }
  }

  lemma StoredIsOnWire(issued: seq<Issued>, n: NodeId, w: Write)
    requires Sourced(issued, n, false, w)
    ensures Sourced(issued, n, true, Wire(w))
  {
    var i :| 0 <= i < |issued| && Behind(issued[i], n, false, w);
    assert Behind(issued[i], n, true, Wire(w));
  }

  lemma PublishSourced(s: State, step: Step)
    requires AllSourced(s) && Enabled(s, step) && step.Publish?
    ensures ReplicaSourced(s.issued, step.node, NextReplica(s, step))
  {
    var n, r := step.node, s.replicas[step.node];
    var c := r.calls[step.id];
    assert CallSourced(s.issued, n, c);
    LeaveSourced(s.issued, n, r, step.id);
    if c.Stored? {
      StoredIsOnWire(s.issued, n, c.w);
    }
    AppendSourced(s.issued, n, Leave(r, step.id), if c.Stored? then RegisterEntry(Wire(c.w)) else c.entry, c.event);
  }

  lemma ReceiveSourced(s: State, step: Step)
    requires AllSourced(s) && Enabled(s, step) && step.Receive?
    ensures ReplicaSourced(s.issued, step.node, NextReplica(s, step))
  {
    var e := s.replicas[step.from].log[step.index].entry;
    assert ReplicaSourced(s.issued, step.from, s.replicas[step.from]);
    assert EntrySourced(s.issued, step.from, e);
    AnyPeer(s.issued, step.from, step.node, e);
    EnterSourced(s.issued, step.node, s.replicas[step.node], step.id, Accepted(e));
  }

  lemma AnyPeer(issued: seq<Issued>, m: NodeId, n: NodeId, e: Entry)
    requires EntrySourced(issued, m, e)
    ensures EntrySourced(issued, n, e)
  {
    if e.RegisterEntry? {
      var i :| 0 <= i < |issued| && Behind(issued[i], m, true, e.w);
      assert Behind(issued[i], n, true, e.w);
    }
  }

  lemma NextReplicaSourced(s: State, step: Step)
    requires AllSourced(s) && Enabled(s, step)
    ensures ReplicaSourced(NextIssued(s, step), step.node, NextReplica(s, step))
    ensures forall i :: 0 <= i < |NextIssued(s, step)| ==> Means(NextIssued(s, step)[i])
  {
    var n, r := step.node, s.replicas[step.node];
    match step
    case Begin(_, _, _, _) => BeginSourced(s, step);
    case Commit(_, id) =>
      assert CallSourced(s.issued, n, r.calls[id]);
      MergeWriteSourced(s.issued, n, r, r.calls[id].w);
      EnterSourced(s.issued, n, MergeWrite(r, r.calls[id].w), id, Stored(r.calls[id].w, r.calls[id].event));
    case Publish(_, _) => PublishSourced(s, step);
    case Receive(_, _, _, _, _) => ReceiveSourced(s, step);
    case Merge(_, id) =>
      assert CallSourced(s.issued, n, r.calls[id]);
      LeaveSourced(s.issued, n, r, id);
      MergeEntrySourced(s.issued, n, Leave(r, id), r.calls[id].entry);
    case _ =>
  }

  lemma NextSourced(s: State, step: Step)
    requires AllSourced(s)
    ensures AllSourced(Next(s, step))
  {
    if Enabled(s, step) {
      NextReplicaSourced(s, step);
      forall n | 0 <= n < |s.replicas| && n != step.node
        ensures ReplicaSourced(NextIssued(s, step), n, s.replicas[n])
      {
        ReplicaSourcedLater(s.issued, NextIssued(s, step), n, s.replicas[n]);
      }
    }
  }

  lemma {:induction false} RunSourced(walls: seq<int>, offsets: seq<int>, steps: seq<Step>)
    requires |walls| == |offsets|
    ensures AllSourced(Run(Initial(walls, offsets), steps))
  {
    if steps != [] {
      RunSourced(walls, offsets, steps[..|steps| - 1]);
      NextSourced(Run(Initial(walls, offsets), steps[..|steps| - 1]), steps[|steps| - 1]);
    }
  }

  // ---------------------------------------------------------------- reads

  /** Over every run, at every node and every time, a read answers what one call asked for:
      of the calls on the key that reached the node, the first of the newest ones. A key that
      no call reached answers nothing. */
  lemma ReadsAnswerCalls(walls: seq<int>, offsets: seq<int>, steps: seq<Step>, m: NodeId, k: Key, now: int)
    returns (i: nat, j: nat, peer: bool)
    requires |walls| == |offsets| && m < |Run(Initial(walls, offsets), steps).replicas|
    ensures var s := Run(Initial(walls, offsets), steps);
            var r := s.replicas[m];
            if !Touches(r.merged, k) then Get(r.cache, k, now) == None && !Live(r.cache, k, now)
            else
              && Reigns(r.merged, j, k) && i < |s.issued| && Behind(s.issued[i], m, peer, r.merged[j])
              && !s.issued[i].intent.Other? && KeyOf(s.issued[i].intent) == k
              && var answer := Answer(s.issued[i].intent, s.issued[i].w.ts.physical, peer, now);
                 Get(r.cache, k, now) == answer && (Live(r.cache, k, now) <==> answer.Some?)
  {
    var s := Run(Initial(walls, offsets), steps);
    var r := s.replicas[m];
    RunSourced(walls, offsets, steps);
    assert ReplicaSourced(s.issued, m, r);
    i, peer := 0, false;
    j := ReplayReads(r.merged, k, now);
    if Touches(r.merged, k) {
      assert MergedSourced(s.issued, m, r.merged[j]);
      peer := !Sourced(s.issued, m, false, r.merged[j]);
      i :| 0 <= i < |s.issued| && Behind(s.issued[i], m, peer, r.merged[j]);
      assert Means(s.issued[i]);
    }
  }

  // ---------------------------------------------------------------- until something newer comes

  /** The node merged nothing newer on the key since it had merged `count` writes. */
  ghost predicate NoneNewer(merged: seq<Write>, count: nat, k: Key, ts: Timestamp) {
    forall j :: count <= j < |merged| && merged[j].key == k ==> !After(merged[j].ts, ts)
  }

  lemma ReignsOn(ws: seq<Write>, more: seq<Write>, j: nat, k: Key)
    requires ws <= more && Reigns(ws, j, k) && NoneNewer(more, |ws|, k, ws[j].ts)
    ensures Reigns(more, j, k)
  {
    forall i | 0 <= i < |ws| ensures more[i] == ws[i] {}
  }

  /** Only one write reigns. */
  lemma OneReigns(ws: seq<Write>, i: nat, j: nat, k: Key)
    requires Reigns(ws, i, k) && Reigns(ws, j, k)
    ensures i == j
  {
  }

  lemma MergedGrows(s: State, step: Step, m: NodeId)
    requires m < |s.replicas|
    ensures m < |Next(s, step).replicas| && s.replicas[m].merged <= Next(s, step).replicas[m].merged
    ensures s.issued <= Next(s, step).issued
  {
  }

  lemma RunJoins(s: State, steps: seq<Step>, more: seq<Step>, step: Step)
    ensures Run(s, steps + (more + [step])) == Next(Run(s, steps + more), step)
  {
    var all := steps + (more + [step]);
    assert all[..|all| - 1] == steps + more;
  }

  lemma {:induction false} RunGrows(s: State, steps: seq<Step>, more: seq<Step>, m: NodeId)
    requires m < |Run(s, steps).replicas|
    ensures var a, b := Run(s, steps), Run(s, steps + more);
            && m < |b.replicas| && a.replicas[m].merged <= b.replicas[m].merged && a.issued <= b.issued
  {
    if more == [] {
      assert steps + more == steps;
    } else {
      var n := |more| - 1;
      RunGrows(s, steps, more[..n], m);
      RunJoins(s, steps, more[..n], more[n]);
      assert more == more[..n] + [more[n]];
      MergedGrows(Run(s, steps + more[..n]), more[n], m);
    }
  }

  /** A register stays as it is exactly until its node merges a strictly newer write. */
  lemma StaysExactlyUntilNewer(walls: seq<int>, offsets: seq<int>, steps: seq<Step>, more: seq<Step>, m: NodeId, k: Key)
    requires |walls| == |offsets|
    requires var s := Run(Initial(walls, offsets), steps); m < |s.replicas| && k in s.replicas[m].cache
    ensures var s, s' := Run(Initial(walls, offsets), steps), Run(Initial(walls, offsets), steps + more);
            && m < |s'.replicas|
            && var r, r' := s.replicas[m], s'.replicas[m];
               Lookup(r'.cache, k) == Lookup(r.cache, k) <==> NoneNewer(r'.merged, |r.merged|, k, r.cache[k].ts)
  {
    var s0 := Initial(walls, offsets);
    RunSourced(walls, offsets, steps);
    RunSourced(walls, offsets, steps + more);
    RunGrows(s0, steps, more, m);
    var r, r' := Run(s0, steps).replicas[m], Run(s0, steps + more).replicas[m];
    assert ReplicaSourced(Run(s0, steps).issued, m, r) && ReplicaSourced(Run(s0, steps + more).issued, m, r');
    SameExactlyWhenNoneNewer(r.merged, r'.merged, k);
  }

  lemma StillReigns(ws: seq<Write>, more: seq<Write>, i: nat, k: Key)
    requires ws <= more && Reigns(ws, i, k) && NoneNewer(more, |ws|, k, ws[i].ts)
    ensures Lookup(Replay(more), k) == Some(Outcome(ws[i]))
  {
    var j := ReplayReigns(more, k);
    ReignsOn(ws, more, i, k);
    assert Touches(more, k) by {
      assert more[i].key == k;
    }
    OneReigns(more, i, j, k);
  }

  lemma NewerReigns(ws: seq<Write>, more: seq<Write>, i: nat, k: Key)
    requires ws <= more && Reigns(ws, i, k) && !NoneNewer(more, |ws|, k, ws[i].ts)
    ensures k in Replay(more) && After(Replay(more)[k].ts, ws[i].ts)
  {
    var j := ReplayReigns(more, k);
    var n :| |ws| <= n < |more| && more[n].key == k && After(more[n].ts, ws[i].ts);
    assert Touches(more, k);
    assert !After(more[n].ts, more[j].ts);
  }

  lemma SameExactlyWhenNoneNewer(ws: seq<Write>, more: seq<Write>, k: Key)
    requires ws <= more && k in Replay(ws)
    ensures Lookup(Replay(more), k) == Lookup(Replay(ws), k) <==> NoneNewer(more, |ws|, k, Replay(ws)[k].ts)
  {
    var i := ReplayReigns(ws, k);
    assert Replay(ws)[k].ts == ws[i].ts;
    if NoneNewer(more, |ws|, k, ws[i].ts) {
      StillReigns(ws, more, i, k);
    } else {
      NewerReigns(ws, more, i, k);
    }
  }

  /** Over every run, once a call reigns at a node, its own or a peer, every read of the key there
      answers what it asked for until the node merges a strictly newer write: after a Delete
      the key is there and not live at any time, after a Set it reads the value exactly until
      the TTL is up. */
  lemma CallAnswersUntilNewer(
    walls: seq<int>, offsets: seq<int>, steps: seq<Step>, more: seq<Step>,
    m: NodeId, i: nat, j: nat, peer: bool, now: int)
    requires |walls| == |offsets|
    requires var s := Run(Initial(walls, offsets), steps);
             && m < |s.replicas| && i < |s.issued| && j < |s.replicas[m].merged|
             && Behind(s.issued[i], m, peer, s.replicas[m].merged[j])
             && Reigns(s.replicas[m].merged, j, s.issued[i].w.key)
    requires var s, s' := Run(Initial(walls, offsets), steps), Run(Initial(walls, offsets), steps + more);
             && m < |s'.replicas|
             && var w := s.issued[i].w;
                NoneNewer(s'.replicas[m].merged, |s.replicas[m].merged|, w.key, w.ts)
    ensures var s, s' := Run(Initial(walls, offsets), steps), Run(Initial(walls, offsets), steps + more);
            var call, cache := s.issued[i], s'.replicas[m].cache;
            && !call.intent.Other? && KeyOf(call.intent) == call.w.key && call.w.key in cache
            && var answer := Answer(call.intent, call.w.ts.physical, peer, now);
               Get(cache, call.w.key, now) == answer && (Live(cache, call.w.key, now) <==> answer.Some?)
  {
    var s0 := Initial(walls, offsets);
    var s, s' := Run(s0, steps), Run(s0, steps + more);
    RunSourced(walls, offsets, steps);
    RunSourced(walls, offsets, steps + more);
    RunGrows(s0, steps, more, m);
    assert Means(s.issued[i]) && ReplicaSourced(s'.issued, m, s'.replicas[m]);
    ReignAnswers(s.replicas[m].merged, s'.replicas[m].merged, s.issued[i], m, j, peer, now);
  }

  lemma ReignAnswers(
    ws: seq<Write>, more: seq<Write>, call: Issued, m: NodeId, j: nat, peer: bool, now: int)
    requires ws <= more && Reigns(ws, j, call.w.key) && Behind(call, m, peer, ws[j]) && Means(call)
    requires NoneNewer(more, |ws|, call.w.key, call.w.ts)
    ensures call.w.key in Replay(more)
    ensures Get(Replay(more), call.w.key, now) == Answer(call.intent, call.w.ts.physical, peer, now)
    ensures Live(Replay(more), call.w.key, now) <==> Answer(call.intent, call.w.ts.physical, peer, now).Some?
  {
    assert ws[j].ts == call.w.ts;
    StillReigns(ws, more, j, call.w.key);
    ReadsOutcome(Replay(more), ws[j], now);
  }

  // ---------------------------------------------------------------- from the call to the read

  /** No step of another call touches a call in flight. */
  predicate Untouched(steps: seq<Step>, n: NodeId, id: nat) {
    forall i :: 0 <= i < |steps| ==> steps[i].node != n || steps[i].id != id
  }

  lemma CallStays(s: State, step: Step, n: NodeId, id: nat)
    requires n < |s.replicas| && id in s.replicas[n].calls && (step.node != n || step.id != id)
    ensures var s' := Next(s, step);
            n < |s'.replicas| && id in s'.replicas[n].calls && s'.replicas[n].calls[id] == s.replicas[n].calls[id]
  {
  }

  lemma {:induction false} CallStaysOn(s: State, steps: seq<Step>, more: seq<Step>, n: NodeId, id: nat)
    requires var t := Run(s, steps); n < |t.replicas| && id in t.replicas[n].calls
    requires Untouched(more, n, id)
    ensures var t, t' := Run(s, steps), Run(s, steps + more);
            n < |t'.replicas| && id in t'.replicas[n].calls && t'.replicas[n].calls[id] == t.replicas[n].calls[id]
  {
    if more == [] {
      assert steps + more == steps;
    } else {
      var last := |more| - 1;
      CallStaysOn(s, steps, more[..last], n, id);
      RunJoins(s, steps, more[..last], more[last]);
      assert more == more[..last] + [more[last]];
      CallStays(Run(s, steps + more[..last]), more[last], n, id);
    }
  }

  /** The newest write to arrive reigns. */
  lemma NotIgnoredReigns(ws: seq<Write>, w: Write)
    requires !Ignored(Replay(ws), w)
    ensures Reigns(ws + [w], |ws|, w.key)
  {
    var i := ReplayReigns(ws, w.key);
    if Touches(ws, w.key) {
      ReignsOneMore(ws, w, i, w.key);
    } else {
      forall j | 0 <= j < |ws| ensures ws[j].key != w.key {}
    }
  }

  /** A call that is begun, any steps of others, and its commit. */
  function Called(n: NodeId, id: nat, intent: Intent, wall: int, between: seq<Step>): seq<Step> {
    [Begin(n, id, intent, wall)] + between + [Commit(n, id)]
  }

  /** The call is on record as it was made, and its write is about to be committed. */
  lemma BegunIsIssued(s: State, n: NodeId, id: nat, intent: Intent, wall: int)
    requires Enabled(s, Begin(n, id, intent, wall)) && !intent.Other?
    ensures var s' := Next(s, Begin(n, id, intent, wall));
            && n < |s'.replicas| && id in s'.replicas[n].calls && s'.replicas[n].calls[id].Stamped?
            && |s'.issued| == |s.issued| + 1 && s'.issued[|s.issued|].node == n
            && s'.issued[|s.issued|].intent == intent && s'.issued[|s.issued|].w == s'.replicas[n].calls[id].w
  {
  }

  lemma CommitMerges(s: State, n: NodeId, id: nat)
    requires WellFormed(s) && n < |s.replicas| && id in s.replicas[n].calls && s.replicas[n].calls[id].Stamped?
    ensures var s' := Next(s, Commit(n, id));
            && Enabled(s, Commit(n, id)) && n < |s'.replicas| && s'.issued == s.issued
            && s'.replicas[n].merged == s.replicas[n].merged + [s.replicas[n].calls[id].w]
  {
  }

  lemma BegunRuns(s: State, before: seq<Step>, n: NodeId, id: nat, intent: Intent, wall: int)
    requires Enabled(Run(s, before), Begin(n, id, intent, wall)) && !intent.Other?
    ensures var t, i := Run(s, before + [Begin(n, id, intent, wall)]), |Run(s, before).issued|;
            && n < |t.replicas| && id in t.replicas[n].calls && t.replicas[n].calls[id].Stamped?
            && i < |t.issued| && t.issued[i].node == n && t.issued[i].intent == intent
            && t.issued[i].w == t.replicas[n].calls[id].w
  {
    BegunIsIssued(Run(s, before), n, id, intent, wall);
    RunJoins(s, before, [], Begin(n, id, intent, wall));
    assert [] + [Begin(n, id, intent, wall)] == [Begin(n, id, intent, wall)] && before + [] == before;
  }

  /** The states of a call: begun, about to be committed, committed. */
  lemma CallRuns(s: State, before: seq<Step>, n: NodeId, id: nat, intent: Intent, wall: int, between: seq<Step>)
    requires Enabled(Run(s, before), Begin(n, id, intent, wall)) && !intent.Other? && Untouched(between, n, id)
    requires WellFormed(Run(s, before + [Begin(n, id, intent, wall)] + between))
    ensures var t := Run(s, before + [Begin(n, id, intent, wall)] + between);
            var t' := Run(s, before + Called(n, id, intent, wall, between));
            var i := |Run(s, before).issued|;
            && n < |t.replicas| && id in t.replicas[n].calls && t.replicas[n].calls[id].Stamped?
            && n < |t'.replicas| && i < |t'.issued|
            && t'.replicas[n].merged == t.replicas[n].merged + [t.replicas[n].calls[id].w]
            && t'.issued[i].node == n && t'.issued[i].intent == intent
            && t'.issued[i].w == t.replicas[n].calls[id].w
  {
    var begin := [Begin(n, id, intent, wall)];
    BegunRuns(s, before, n, id, intent, wall);
    CallStaysOn(s, before + begin, between, n, id);
    RunGrows(s, before + begin, between, n);
    CommitMerges(Run(s, before + begin + between), n, id);
    RunJoins(s, before, begin + between, Commit(n, id));
    assert before + (begin + between) == before + begin + between;
  }

  /** Over every run, a Set or Delete that is not ignored when it reaches the store of its node
      is answered from then on, whatever else runs in between and afterwards, until the node
      merges something strictly newer: a deleted key is not live at any time, a set one reads
      its value exactly until its TTL is up. */
  lemma CommittedCallAnswers(
    walls: seq<int>, offsets: seq<int>, before: seq<Step>, n: NodeId, id: nat, intent: Intent, wall: int,
    between: seq<Step>, more: seq<Step>, now: int)
    requires |walls| == |offsets| && !intent.Other? && Untouched(between, n, id)
    requires Enabled(Run(Initial(walls, offsets), before), Begin(n, id, intent, wall))
    ensures var s := Run(Initial(walls, offsets), before + [Begin(n, id, intent, wall)] + between);
            var s' := Run(Initial(walls, offsets), before + Called(n, id, intent, wall, between) + more);
            && n < |s.replicas| && n < |s'.replicas|
            && id in s.replicas[n].calls && s.replicas[n].calls[id].Stamped?
            && var r, r', w := s.replicas[n], s'.replicas[n], s.replicas[n].calls[id].w;
               !Ignored(r.cache, w) && NoneNewer(r'.merged, |r.merged| + 1, intent.key, w.ts) ==>
                 && intent.key in r'.cache
                 && Get(r'.cache, intent.key, now) == Answer(intent, w.ts.physical, false, now)
                 && (Live(r'.cache, intent.key, now) <==> Answer(intent, w.ts.physical, false, now).Some?)
  {
    var s0, begin := Initial(walls, offsets), [Begin(n, id, intent, wall)];
    var called := Called(n, id, intent, wall, between);
    var s, i := Run(s0, before + begin + between), |Run(s0, before).issued|;
    RunSourced(walls, offsets, before + begin + between);
    CallRuns(s0, before, n, id, intent, wall, between);
    RunSourced(walls, offsets, before + called);
    RunGrows(s0, before + called, more, n);
    var r, w := s.replicas[n], s.replicas[n].calls[id].w;
    var call, r' := Run(s0, before + called).issued[i], Run(s0, before + called + more).replicas[n];
    assert Means(call);
    if !Ignored(r.cache, w) && NoneNewer(r'.merged, |r.merged| + 1, intent.key, w.ts) {
      assert ReplicaSourced(s.issued, n, r);
      NotIgnoredReigns(r.merged, w);
      CallAnswersUntilNewer(walls, offsets, before + called, more, n, i, |r.merged|, false, now);
    }
  }

  lemma MergeMerges(s: State, m: NodeId, id: nat)
    requires WellFormed(s) && m < |s.replicas| && id in s.replicas[m].calls
    requires s.replicas[m].calls[id].Accepted? && s.replicas[m].calls[id].entry.RegisterEntry?
    ensures var s' := Next(s, Step.Merge(m, id));
            && m < |s'.replicas| && s'.issued == s.issued
            && s'.replicas[m].merged == s.replicas[m].merged + [s.replicas[m].calls[id].entry.w]
  {
  }

  /** The same at every peer: an entry that is not ignored when it is merged makes reads there
      answer what its call asked for, its TTL in whole milliseconds. */
  lemma MergedCallAnswers(
    walls: seq<int>, offsets: seq<int>, before: seq<Step>, m: NodeId, id: nat, more: seq<Step>, now: int)
    returns (i: nat)
    requires |walls| == |offsets|
    requires var s := Run(Initial(walls, offsets), before);
             && m < |s.replicas| && id in s.replicas[m].calls
             && s.replicas[m].calls[id].Accepted? && s.replicas[m].calls[id].entry.RegisterEntry?
    ensures var s := Run(Initial(walls, offsets), before);
            var s' := Run(Initial(walls, offsets), before + [Step.Merge(m, id)] + more);
            && m < |s'.replicas| && i < |s.issued|
            && var call, w, r, r' := s.issued[i], s.replicas[m].calls[id].entry.w, s.replicas[m], s'.replicas[m];
               && Wire(call.w) == w && !call.intent.Other? && call.intent.key == w.key
               && (!Ignored(r.cache, w) && NoneNewer(r'.merged, |r.merged| + 1, w.key, w.ts) ==>
                     && w.key in r'.cache
                     && Get(r'.cache, w.key, now) == Answer(call.intent, w.ts.physical, true, now)
                     && (Live(r'.cache, w.key, now) <==> Answer(call.intent, w.ts.physical, true, now).Some?))
  {
    var s0, merge := Initial(walls, offsets), [Step.Merge(m, id)];
    var s := Run(s0, before);
    RunSourced(walls, offsets, before);
    var r, w := s.replicas[m], s.replicas[m].calls[id].entry.w;
    assert ReplicaSourced(s.issued, m, r);
    assert CallSourced(s.issued, m, r.calls[id]);
    i :| 0 <= i < |s.issued| && Behind(s.issued[i], m, true, w);
    assert Means(s.issued[i]);
    MergeMerges(s, m, id);
    RunJoins(s0, before, [], merge[0]);
    assert [] + merge == merge && before + [] == before;
    RunGrows(s0, before + merge, more, m);
    var r' := Run(s0, before + merge + more).replicas[m];
    if !Ignored(r.cache, w) && NoneNewer(r'.merged, |r.merged| + 1, w.key, w.ts) {
      NotIgnoredReigns(r.merged, w);
      CallAnswersUntilNewer(walls, offsets, before + merge, more, m, i, |r.merged|, true, now);
    }
  }
}
