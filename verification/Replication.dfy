/** The replicator of capacitor.go towards one peer: a cursor into the delta log that
    advances with successful sends and may be moved by a handshake from the peer. */
module Replication {
  import opened Wrappers
  import opened MessagePack
  import opened DeltaLog
  import opened Keys
  import S = Store

  /** At most this many entries go into one batch. */
  const BATCH_ENTRIES := 1000
  const BATCH_BYTES := 8 * 1024 * 1024

  /** A batch read from the log and not yet answered: `count` entries from sequence number
      `from` on, read when the cursor stood at `lastSeq`. */
  datatype Flight = Flight(lastSeq: nat, from: nat, count: nat)

  /** What becomes of a batch at the peer: it never gets there, or it gets there whole and
      each entry is applied unless the peer's clock refuses its timestamp. */
  datatype Outcome = Lost | Arrived(accepted: set<nat>)

  /** `sent` and `applied` are history: the sequence numbers of the batches whose send
      succeeded or that arrived, and those the peer has applied, in order. */
  datatype State = State(
    capacity: nat, head: nat, cursor: nat, flight: Option<Flight>, sent: seq<nat>, applied: seq<nat>)

  datatype Step =
    | Append
    | Fetch(count: nat)          // GetEntriesRaw returned this many entries
    | Succeed(outcome: Outcome)  // the send returned without an error; nothing is acknowledged
    | Fail(outcome: Outcome)     // it returned an error, whether or not the batch arrived
    | Rewind(seen: nat)          // a handshake from the peer stores its last-seen sequence

  /** A log of the given capacity towards a peer whose recorded sequence is `seed`. */
  function Initial(capacity: nat, seed: nat): State { State(capacity, 1, seed, None, [], []) }

  /** Where a read from the cursor starts: entries that were overwritten are passed over. */
  function From(s: State): nat { Max(s.cursor + 1, Earliest(s.head, s.capacity)) }

  /** The peer reports the sequence number of an entry it has applied, or none. */
  predicate Enabled(s: State, step: Step) {
    match step
    case Append => true
    case Fetch(n) =>
      s.flight.None? && s.head > s.cursor + 1 && 1 <= n <= BATCH_ENTRIES && From(s) + n <= s.head
    case Succeed(_) => s.flight.Some?
    case Fail(_) => s.flight.Some?
    case Rewind(seen) => seen == 0 || seen in s.applied
  }

  /** With nothing in flight any one to a thousand entries that are there may be read, from the
      first one after the cursor that is still in the log. */
  lemma FetchExactly(s: State, n: nat)
    ensures Enabled(s, Fetch(n)) <==>
            s.flight.None? && 1 <= n <= 1_000 && Max(s.cursor + 1, Earliest(s.head, s.capacity)) + n <= s.head
  {
  }

  function Run(from: nat, count: nat): seq<nat> { seq(count, i requires 0 <= i < count => from + i) }

  /** The entries of a batch that the peer applies. */
  function Kept(from: nat, count: nat, outcome: Outcome): seq<nat> {
    if count == 0 || outcome.Lost? then []
    else
      var last := from + count - 1;
      Kept(from, count - 1, outcome) + if last in outcome.accepted then [last] else []
  }

  function Next(s: State, step: Step): State {
    if !Enabled(s, step) then s
    else match step
      case Append => s.(head := s.head + 1)
      case Fetch(n) => s.(flight := Some(Flight(s.cursor, From(s), n)))
      case Succeed(o) =>
        var f := s.flight.value;
        s.(cursor := f.lastSeq + f.count, flight := None,
           sent := s.sent + Run(f.from, f.count), applied := s.applied + Kept(f.from, f.count, o))
      case Fail(o) =>
        var f := s.flight.value;
        s.(flight := None, sent := if o.Lost? then s.sent else s.sent + Run(f.from, f.count),
           applied := s.applied + Kept(f.from, f.count, o))
      case Rewind(seen) => s.(cursor := seen)
  }

  function Execute(s: State, steps: seq<Step>): State {
    if steps == [] then s
    else Next(Execute(s, steps[..|steps| - 1]), steps[|steps| - 1])
  }

  // ---------------------------------------------------------------- no live entry is skipped

  /** Every live entry up to sequence number t is in the list. */
  ghost predicate Covered(s: State, list: seq<nat>, t: int) {
    forall u :: Earliest(s.head, s.capacity) <= u <= t ==> u in list
  }

  ghost predicate Inv(s: State) {
    && s.capacity > 0 && s.cursor < s.head
    && Covered(s, s.sent, s.cursor)
    && (forall u :: u in s.sent ==> 1 <= u < s.head && Covered(s, s.sent, u))
    && (forall u :: u in s.applied ==> u in s.sent)
    && (s.flight.Some? ==>
          var f := s.flight.value;
          f.lastSeq < f.from && 1 <= f.count && f.from + f.count <= s.head && Covered(s, s.sent, f.from - 1))
  }

  lemma InRun(from: nat, count: nat, u: nat)
    ensures u in Run(from, count) <==> from <= u < from + count
  {
    if from <= u < from + count {
      assert Run(from, count)[u - from] == u;
    }
  }

  lemma {:induction false} InKept(from: nat, count: nat, o: Outcome, u: nat)
    ensures u in Kept(from, count, o) <==> o.Arrived? && from <= u < from + count && u in o.accepted
  {
    if count > 0 {
      InKept(from, count - 1, o, u);
    }
  }

  /** A batch that follows a covered part covers more. */
  lemma BatchCovers(s: State, f: Flight, s': State)
    requires Inv(s) && s.flight == Some(f)
    requires s'.head == s.head && s'.capacity == s.capacity && s'.sent == s.sent + Run(f.from, f.count)
    ensures Covered(s', s'.sent, f.from + f.count - 1)
    ensures forall u :: u in s'.sent ==> 1 <= u < s'.head && Covered(s', s'.sent, u)
  {
    forall u | Earliest(s.head, s.capacity) <= u <= f.from + f.count - 1 ensures u in s'.sent {
      InRun(f.from, f.count, u);
    }
    forall u | u in s'.sent ensures 1 <= u < s'.head && Covered(s', s'.sent, u) {
      InRun(f.from, f.count, u);
    }
  }

  lemma KeptIsSent(f: Flight, o: Outcome, u: nat)
    requires u in Kept(f.from, f.count, o)
    ensures o.Arrived? && u in Run(f.from, f.count)
  {
    InKept(f.from, f.count, o, u);
    InRun(f.from, f.count, u);
  }

  lemma AppliedWasSent(s: State, step: Step)
    requires Inv(s) && Enabled(s, step)
    ensures forall u :: u in Next(s, step).applied ==> u in Next(s, step).sent
  {
    forall u | u in Next(s, step).applied ensures u in Next(s, step).sent {
      if u !in s.applied {
        KeptIsSent(s.flight.value, step.outcome, u);
      }
    }
  }

  lemma NextKeepsInv(s: State, step: Step)
    requires Inv(s)
    ensures Inv(Next(s, step))
  {
    if Enabled(s, step) {
      var s' := Next(s, step);
      AppliedWasSent(s, step);
      match step
      case Append =>
        forall t | Covered(s, s.sent, t) ensures Covered(s', s'.sent, t) {}
      case Fetch(n) =>
      case Succeed(_) =>
        BatchCovers(s, s.flight.value, s');
      case Fail(o) =>
        if o.Arrived? {
          BatchCovers(s, s.flight.value, s');
        }
      case Rewind(seen) =>
    }
  }

  /** Replicator safety: from a fresh peer, over every interleaving of appends, reads,
      failed and successful sends and handshakes, the cursor stays inside the log and every
      live entry up to it has been sent. */
  lemma {:induction false} NothingSkipped(capacity: nat, steps: seq<Step>)
    requires capacity > 0
    ensures Inv(Execute(Initial(capacity, 0), steps))
  {
    if steps != [] {
      NothingSkipped(capacity, steps[..|steps| - 1]);
      NextKeepsInv(Execute(Initial(capacity, 0), steps[..|steps| - 1]), steps[|steps| - 1]);
    }
  }

  // ---------------------------------------------------------------- the seed of the cursor

  /** A live entry lies at or below the cursor and was never sent. */
  ghost predicate Skips(s: State) {
    exists u :: Earliest(s.head, s.capacity) <= u < s.head && u <= s.cursor && u !in s.sent
  }

  function Appends(n: nat): seq<Step> { seq(n, _ => Append) }

  lemma {:induction false} AfterAppends(s: State, n: nat)
    ensures Execute(s, Appends(n)) == s.(head := s.head + n)
  {
    if n > 0 {
      AfterAppends(s, n - 1);
      assert Appends(n)[..n - 1] == Appends(n - 1);
    }
  }

  lemma ExecuteOneMore(s: State, steps: seq<Step>, step: Step)
    ensures Execute(s, steps + [step]) == Next(Execute(s, steps), step)
  {
    assert (steps + [step])[..|steps|] == steps;
  }

  /** The seed of the cursor is the last sequence seen from the peer, which counts the
      peer's log and not this one. No run skips a live entry exactly when the seed is 0:
      with any other seed the first entries are not sent, and once as many are appended as
      the seed says the replicator takes the peer to be up to date. */
  lemma SkipFreeExactlyFromZero(capacity: nat, seed: nat)
    requires capacity > 0
    ensures (forall steps :: !Skips(Execute(Initial(capacity, seed), steps))) <==> seed == 0
  {
    if seed == 0 {
      forall steps ensures !Skips(Execute(Initial(capacity, seed), steps)) {
        NothingSkipped(capacity, steps);
      }
    } else {
      var s := Execute(Initial(capacity, seed), Appends(seed));
      AfterAppends(Initial(capacity, seed), seed);
      assert Earliest(s.head, s.capacity) <= seed < s.head && seed <= s.cursor && seed !in s.sent;
    }
  }

  ghost predicate Behind(s: State) {
    s.flight.Some? ==>
      var f := s.flight.value; f.lastSeq < f.from && 1 <= f.count && f.from + f.count <= s.head
  }

  lemma {:induction false} FlightsBehind(capacity: nat, seed: nat, steps: seq<Step>)
    ensures var s := Execute(Initial(capacity, seed), steps);
            Behind(s) && s.capacity == capacity
  {
    if steps != [] {
      FlightsBehind(capacity, seed, steps[..|steps| - 1]);
    }
  }

  lemma SuccessSkipsNothing(capacity: nat, seed: nat, steps: seq<Step>, o: Outcome)
    requires capacity > 0 && (seed == 0 || capacity == 1)
    ensures var s := Execute(Initial(capacity, seed), steps);
            s.flight.Some? ==> !Skips(Next(s, Succeed(o)))
  {
    var s := Execute(Initial(capacity, seed), steps);
    if seed == 0 {
      NothingSkipped(capacity, steps);
      NextKeepsInv(s, Succeed(o));
    } else if s.flight.Some? {
      FlightsBehind(capacity, seed, steps);
      var f := s.flight.value;
      InRun(f.from, f.count, s.head - 1);
    }
  }

  lemma SeedSkips(capacity: nat, seed: nat, o: Outcome)
    requires capacity > 1 && seed > 0
    ensures var s := Execute(Initial(capacity, seed), Appends(seed + 1) + [Fetch(1)]);
            s.flight.Some? && Skips(Next(s, Succeed(o)))
  {
    var s0 := Initial(capacity, seed);
    AfterAppends(s0, seed + 1);
    ExecuteOneMore(s0, Appends(seed + 1), Fetch(1));
    var s := Next(Execute(s0, Appends(seed + 1) + [Fetch(1)]), Succeed(o));
    assert s.sent == Run(seed + 1, 1);
    InRun(seed + 1, 1, seed);
    assert Earliest(s.head, s.capacity) <= seed < s.head && seed <= s.cursor && seed !in s.sent;
  }

  /** No successful send ever leaves a live entry behind it exactly when the seed is 0 or
      the log has a single slot. */
  lemma SendsLeaveNothingExactly(capacity: nat, seed: nat)
    requires capacity > 0
    ensures (forall steps, o :: var s := Execute(Initial(capacity, seed), steps);
                                s.flight.Some? ==> !Skips(Next(s, Succeed(o)))) <==> seed == 0 || capacity == 1
  {
    if seed == 0 || capacity == 1 {
      forall steps, o
        ensures var s := Execute(Initial(capacity, seed), steps); s.flight.Some? ==> !Skips(Next(s, Succeed(o)))
      {
        SuccessSkipsNothing(capacity, seed, steps, o);
      }
    } else {
      SeedSkips(capacity, seed, Lost);
      assert Execute(Initial(capacity, seed), Appends(seed + 1) + [Fetch(1)]).flight.Some?;
    }
  }

  // ---------------------------------------------------------------- exactly once, in order

  /** A step of a run without handshakes, without failures after arrival, and in which the
      cursor is never lapped by the log. */
  predicate Calm(s: State, step: Step) {
    && !step.Rewind? && !(step.Fail? && step.outcome.Arrived?)
    && (step.Fetch? ==> Earliest(s.head, s.capacity) <= s.cursor + 1)
  }

  predicate AllCalm(s: State, steps: seq<Step>) {
    steps == [] ||
    (AllCalm(s, steps[..|steps| - 1]) && Calm(Execute(s, steps[..|steps| - 1]), steps[|steps| - 1]))
  }

  ghost predicate InOrder(s: State) {
    && s.sent == Run(1, s.cursor)
    && (s.flight.Some? ==> s.flight.value.lastSeq == s.cursor && s.flight.value.from == s.cursor + 1)
  }

  /** In a calm run each entry is sent exactly once and in order. */
  lemma {:induction false} ExactlyOnce(capacity: nat, steps: seq<Step>)
    requires capacity > 0 && AllCalm(Initial(capacity, 0), steps)
    ensures InOrder(Execute(Initial(capacity, 0), steps))
  {
    if steps != [] {
      ExactlyOnce(capacity, steps[..|steps| - 1]);
    }
  }

  // ---------------------------------------------------------------- sent is not applied

  /** The whole batch arrives and the peer's clock accepts every entry of it. */
  ghost predicate Whole(f: Flight, o: Outcome) {
    o.Arrived? && forall u :: f.from <= u < f.from + f.count ==> u in o.accepted
  }

  lemma {:induction false} WholeIsKept(f: Flight, o: Outcome, n: nat)
    requires o.Arrived? && n <= f.count && forall u :: f.from <= u < f.from + n ==> u in o.accepted
    ensures Kept(f.from, n, o) == Run(f.from, n)
  {
    if n > 0 {
      WholeIsKept(f, o, n - 1);
      assert Run(f.from, n) == Run(f.from, n - 1) + [f.from + n - 1];
    }
  }

  /** A successful send is applied whole, and so is one that fails after it arrived. */
  ghost predicate Faithful(s: State, step: Step) {
    s.flight.Some? && (step.Succeed? || (step.Fail? && step.outcome.Arrived?)) ==>
      Whole(s.flight.value, step.outcome)
  }

  ghost predicate AllFaithful(s: State, steps: seq<Step>) {
    steps == [] ||
    (AllFaithful(s, steps[..|steps| - 1]) && Faithful(Execute(s, steps[..|steps| - 1]), steps[|steps| - 1]))
  }

  /** While the peer applies all that reaches it and all that is sent reaches it, it has
      applied what was sent: with `NothingSkipped`, every live entry up to the cursor. */
  lemma {:induction false} FaithfulApplies(capacity: nat, steps: seq<Step>)
    requires capacity > 0 && AllFaithful(Initial(capacity, 0), steps)
    ensures var s := Execute(Initial(capacity, 0), steps);
            s.applied == s.sent && Covered(s, s.applied, s.cursor)
  {
    NothingSkipped(capacity, steps);
    if steps != [] {
      var s, step := Execute(Initial(capacity, 0), steps[..|steps| - 1]), steps[|steps| - 1];
      FaithfulApplies(capacity, steps[..|steps| - 1]);
      if s.flight.Some? && (step.Succeed? || step.Fail?) && step.outcome.Arrived? {
        WholeIsKept(s.flight.value, step.outcome, s.flight.value.count);
      }
    }
  }

  /** An entry up to the cursor that the peer does not have, and no batch to come holds. */
  ghost predicate Missing(s: State) {
    exists u :: 1 <= u <= s.cursor && u !in s.applied
  }

  lemma MissingStays(s: State, step: Step)
    requires InOrder(s) && Calm(s, step) && Missing(s)
    ensures Missing(Next(s, step))
  {
    var u :| 1 <= u <= s.cursor && u !in s.applied;
    if Enabled(s, step) && (step.Succeed? || step.Fail?) {
      InKept(s.flight.value.from, s.flight.value.count, step.outcome, u);
    }
    assert u !in Next(s, step).applied;
  }

  lemma UnwholeMisses(s: State, step: Step)
    requires Inv(s) && InOrder(s) && Calm(s, step) && !Faithful(s, step)
    ensures Missing(Next(s, step))
  {
    var f, o := s.flight.value, step.outcome;
    var u :| f.from <= u < f.from + f.count && (o.Lost? || u !in o.accepted);
    InKept(f.from, f.count, o, u);
    if u in s.applied {
      InRun(1, s.cursor, u);
    }
    assert u !in Next(s, step).applied;
  }

  lemma {:induction false} UnfaithfulMisses(capacity: nat, steps: seq<Step>)
    requires capacity > 0 && AllCalm(Initial(capacity, 0), steps) && !AllFaithful(Initial(capacity, 0), steps)
    ensures Missing(Execute(Initial(capacity, 0), steps))
  {
    var before := steps[..|steps| - 1];
    var s := Execute(Initial(capacity, 0), before);
    ExactlyOnce(capacity, before);
    NothingSkipped(capacity, before);
    if AllFaithful(Initial(capacity, 0), before) {
      UnwholeMisses(s, steps[|steps| - 1]);
    } else {
      UnfaithfulMisses(capacity, before);
      MissingStays(s, steps[|steps| - 1]);
    }
  }

  /** A send that returns without an error promises nothing about the peer. In a calm run
      the peer has applied every entry up to the cursor exactly when each batch whose send
      succeeded arrived and the peer's clock accepted all of it. */
  lemma AppliedExactlyWhenFaithful(capacity: nat, steps: seq<Step>)
    requires capacity > 0 && AllCalm(Initial(capacity, 0), steps)
    ensures var s := Execute(Initial(capacity, 0), steps);
            && (!Missing(s) <==> AllFaithful(Initial(capacity, 0), steps))
            && (s.applied == Run(1, s.cursor) <==> AllFaithful(Initial(capacity, 0), steps))
  {
    var s := Execute(Initial(capacity, 0), steps);
    ExactlyOnce(capacity, steps);
    if AllFaithful(Initial(capacity, 0), steps) {
      FaithfulApplies(capacity, steps);
    } else {
      UnfaithfulMisses(capacity, steps);
    }
    forall u | 1 <= u <= s.cursor ensures u in Run(1, s.cursor) {
      InRun(1, s.cursor, u);
    }
  }

  /** In any run, a successful send extends what the peer has applied of the live entries up
      to the cursor exactly when it has, or now accepts, each live one of the batch. */
  lemma SuccessAppliesExactly(s: State, o: Outcome)
    requires Inv(s) && s.flight.Some? && Covered(s, s.applied, s.flight.value.from - 1)
    ensures var s', f := Next(s, Succeed(o)), s.flight.value;
            Covered(s', s'.applied, s'.cursor) <==>
              forall u :: Max(f.from, Earliest(s.head, s.capacity)) <= u <= s'.cursor ==>
                            u in s.applied || (o.Arrived? && u in o.accepted)
  {
    var s', f := Next(s, Succeed(o)), s.flight.value;
    forall u ensures u in s'.applied <==> u in s.applied || u in Kept(f.from, f.count, o) {
    }
    forall u: nat | f.from <= u <= s'.cursor
      ensures u in Kept(f.from, f.count, o) <==> o.Arrived? && u in o.accepted
    {
      InKept(f.from, f.count, o, u);
    }
  }

  // ---------------------------------------------------------------- drain

  /** The entries that are still to be sent. */
  function Backlog(s: State): int { s.head - 1 - s.cursor }

  /** A read of `count` entries, and what becomes of the batch. */
  datatype Turn = Turn(count: nat, outcome: Outcome)

  /** A read and a successful send, when there is something to read. */
  function Cycle(s: State, t: Turn): State { Next(Next(s, Fetch(t.count)), Succeed(t.outcome)) }

  function Cycles(s: State, turns: seq<Turn>): State
    decreases |turns|
  {
    if turns == [] then s else Cycles(Cycle(s, turns[0]), turns[1..])
  }

  /** Every read in the sequence returns a batch the log may return. */
  predicate Served(s: State, turns: seq<Turn>)
    decreases |turns|
  {
    turns != [] && Backlog(s) > 0 ==> Enabled(s, Fetch(turns[0].count)) && Served(Cycle(s, turns[0]), turns[1..])
  }

  /** A read and a successful send move the cursor by the number of entries read, from where it
      stood and not from where the read started: after a clamped read it is behind what was
      sent. A send that fails leaves everything as it was before the read, but for what the
      peer got of it. */
  lemma CycleMoves(s: State, t: Turn, o: Outcome)
    requires Enabled(s, Fetch(t.count))
    ensures var r, from := Cycle(s, t), Max(s.cursor + 1, Earliest(s.head, s.capacity));
            && r.cursor == s.cursor + t.count && r.head == s.head && r.flight.None?
            && r.sent == s.sent + Run(from, t.count) && r.applied == s.applied + Kept(from, t.count, t.outcome)
    ensures Next(Next(s, Fetch(t.count)), Fail(Lost)) == s
    ensures o.Arrived? ==> Next(Next(s, Fetch(t.count)), Fail(o)) == Cycle(s, Turn(t.count, o)).(cursor := s.cursor)
  {
  }

  /** Without further appends each successful cycle shrinks the backlog, even after a
      clamped read, and as many cycles as the backlog empties it: then every live entry has
      been sent. */
  lemma {:induction false} Drains(s: State, turns: seq<Turn>)
    requires Inv(s) && s.flight.None? && Served(s, turns) && |turns| >= Backlog(s)
    ensures var r := Cycles(s, turns);
            Inv(r) && r.head == s.head && Backlog(r) == 0 && Covered(r, r.sent, r.head - 1)
    decreases |turns|
  {
    if turns != [] {
      var s' := Cycle(s, turns[0]);
      NextKeepsInv(s, Fetch(turns[0].count));
      NextKeepsInv(Next(s, Fetch(turns[0].count)), Succeed(turns[0].outcome));
      if Backlog(s) > 0 {
        assert Backlog(s') <= Backlog(s) - 1;
        Drains(s', turns[1..]);
      } else {
        IdleStays(s, turns);
      }
    }
  }

  lemma {:induction false} IdleStays(s: State, turns: seq<Turn>)
    requires s.flight.None? && Backlog(s) <= 0
    ensures Cycles(s, turns) == s
    decreases |turns|
  {
    if turns != [] {
      IdleStays(s, turns[1..]);
    }
  }

  /** The batch is lost, or the peer's clock refuses all of it. */
  predicate Refused(o: Outcome) { o.Lost? || o.accepted == {} }

  lemma {:induction false} RefusedAppliesNothing(s: State, turns: seq<Turn>)
    requires s.flight.None? && forall i :: 0 <= i < |turns| ==> Refused(turns[i].outcome)
    ensures Cycles(s, turns).applied == s.applied
    decreases |turns|
  {
    if turns != [] {
      var f := Next(s, Fetch(turns[0].count)).flight;
      if f.Some? {
        RefusedKeepsNothing(f.value.from, f.value.count, turns[0].outcome);
      }
      RefusedAppliesNothing(Cycle(s, turns[0]), turns[1..]);
    }
  }

  lemma {:induction false} RefusedKeepsNothing(from: nat, count: nat, o: Outcome)
    requires Refused(o)
    ensures Kept(from, count, o) == []
  {
    if count > 0 {
      RefusedKeepsNothing(from, count - 1, o);
    }
  }

  /** A peer whose wall clock lags, or that is cut off without an error, applies nothing
      while the cursor runs to the head of the log: nothing is left to send, and every
      entry is missing. */
  lemma {:induction false} SilentLoss(capacity: nat, n: nat, turns: seq<Turn>)
    requires capacity > 0 && |turns| >= n
    requires Served(Execute(Initial(capacity, 0), Appends(n)), turns)
    requires forall i :: 0 <= i < |turns| ==> Refused(turns[i].outcome)
    ensures var s := Cycles(Execute(Initial(capacity, 0), Appends(n)), turns);
            s.cursor == n && Backlog(s) == 0 && s.applied == [] && Covered(s, s.sent, n)
  {
    var s := Execute(Initial(capacity, 0), Appends(n));
    AfterAppends(Initial(capacity, 0), n);
    NothingSkipped(capacity, Appends(n));
    Drains(s, turns);
    RefusedAppliesNothing(s, turns);
  }

  // ---------------------------------------------------------------- metrics

  /** The part of a log entry that matters to metrics. */
  datatype Item = MetricItem(key: string, delta: int) | OtherItem

  /** What the entries of one log amount to for one key: how many deltas, and their total. */
  datatype Metric = Metric(count: int, sum: int)

  function AddItem(m: Metric, item: Item, key: string): Metric {
    if item.MetricItem? && item.key == key then Metric(m.count + 1, m.sum + item.delta) else m
  }

  /** The number and total of the deltas logged for a key. */
  function Logged(log: seq<Item>, key: string): Metric {
    if log == [] then Metric(0, 0)
    else AddItem(Logged(log[..|log| - 1], key), log[|log| - 1], key)
  }

  predicate ColonFreeItem(item: Item) { item.MetricItem? ==> ColonFree(item.key) }

  predicate AllColonFree(log: seq<Item>) { forall i :: 0 <= i < |log| ==> ColonFreeItem(log[i]) }

  predicate Within(applied: seq<nat>, n: nat) { forall i :: 0 <= i < |applied| ==> 1 <= applied[i] <= n }

  /** What applying an entry of the node's log does to a receiving store. */
  function ApplyItem(m: S.Mem, item: Item, node: string): S.Mem {
    if item.MetricItem? then S.IncrementMetric(m, item.key, node, item.delta) else m
  }

  /** The receiving store after the entries with the given sequence numbers. */
  function Receive(m: S.Mem, log: seq<Item>, applied: seq<nat>, node: string): S.Mem
    requires Within(applied, |log|)
  {
    if applied == [] then m
    else
      var last := |applied| - 1;
      ApplyItem(Receive(m, log, applied[..last], node), log[applied[last] - 1], node)
  }

  /** What a store holds of a node's metric. */
  function Held(m: S.Mem, key: string, node: string): Metric {
    Metric(S.Partial(m, S.MetricCount, key, node), S.Partial(m, S.MetricSum, key, node))
  }

  lemma ApplyAdds(m: S.Mem, item: Item, key: string, node: string)
    requires ColonFreeItem(item) && ColonFree(key)
    ensures Held(ApplyItem(m, item, node), key, node) == AddItem(Held(m, key, node), item, key)
  {
    if item.MetricItem? {
      S.MetricAdds(m, item.key, node, item.delta, S.MetricCount, key, node);
      S.MetricAdds(m, item.key, node, item.delta, S.MetricSum, key, node);
    }
  }

  lemma {:induction false} ReceiveRun(m: S.Mem, log: seq<Item>, n: nat, key: string, node: string)
    requires n <= |log| && AllColonFree(log) && ColonFree(key) && Held(m, key, node) == Metric(0, 0)
    ensures Within(Run(1, n), |log|) && Held(Receive(m, log, Run(1, n), node), key, node) == Logged(log[..n], key)
  {
    if n > 0 {
      ReceiveRun(m, log, n - 1, key, node);
      assert Run(1, n)[..n - 1] == Run(1, n - 1);
      assert log[..n][..n - 1] == log[..n - 1];
      assert ColonFreeItem(log[n - 1]);
      ApplyAdds(Receive(m, log, Run(1, n - 1), node), log[n - 1], key, node);
    }
  }

  /** Exactly-once composition: after any calm run in which the peer applied what it was
      sent, the receiving store holds for this node exactly the number and total of the
      deltas it logged up to the cursor. */
  lemma MetricsExact(capacity: nat, steps: seq<Step>, m: S.Mem, log: seq<Item>, key: string, node: string)
    requires capacity > 0 && AllCalm(Initial(capacity, 0), steps) && AllFaithful(Initial(capacity, 0), steps)
    requires |log| == Execute(Initial(capacity, 0), steps).head - 1
    requires AllColonFree(log) && ColonFree(key) && Held(m, key, node) == Metric(0, 0)
    ensures var s := Execute(Initial(capacity, 0), steps);
            && s.cursor <= |log| && Within(s.applied, |log|)
            && Held(Receive(m, log, s.applied, node), key, node) == Logged(log[..s.cursor], key)
  {
    NothingSkipped(capacity, steps);
    AppliedExactlyWhenFaithful(capacity, steps);
    ReceiveRun(m, log, Execute(Initial(capacity, 0), steps).cursor, key, node);
  }

  /** Metric merges add, so applying an entry again counts it again: unlike registers,
      counters and windows, metrics are wrong after a rewind exactly when what is sent again
      holds a delta of the key. */
  lemma ResentBatchCountsTwice(m: S.Mem, log: seq<Item>, applied: seq<nat>, u: nat, key: string, node: string)
    requires 1 <= u <= |log| && u in applied && Within(applied, |log|) && AllColonFree(log) && ColonFree(key)
    ensures Within(applied + [u], |log|)
    ensures Held(Receive(m, log, applied + [u], node), key, node) == Held(Receive(m, log, applied, node), key, node)
            <==> !(log[u - 1].MetricItem? && log[u - 1].key == key)
  {
    assert (applied + [u])[..|applied|] == applied;
    assert ColonFreeItem(log[u - 1]);
    ApplyAdds(Receive(m, log, applied, node), log[u - 1], key, node);
  }

  // ---------------------------------------------------------------- the replicator

  /** The state machine towards a peer with nothing in flight. */
  function Towards(capacity: nat, head: nat, cursor: nat): State { State(capacity, head, cursor, None, [], []) }

  /** The batch is what one cycle of the state machine sends. */
  ghost predicate IsCycle(batch: seq<Bytes>, history: seq<Bytes>, s: State, cursor: nat, delivered: bool) {
    && Enabled(s, Fetch(|batch|))
    && var r := Cycle(s, Turn(|batch|, Lost));
       && cursor == (if delivered then r.cursor else s.cursor)
       && |r.sent| == |batch|
       && forall i :: 0 <= i < |batch| ==> 1 <= r.sent[i] <= |history| && batch[i] == history[r.sent[i] - 1]
  }

  lemma OwedIsCycle(batch: seq<Bytes>, history: seq<Bytes>, capacity: nat, cursor: nat, delivered: bool)
    requires capacity > 0 && cursor < |history| && IsOwed(batch, history, capacity, cursor)
    ensures IsCycle(batch, history, Towards(capacity, |history| + 1, cursor),
                    cursor + if delivered then |batch| else 0, delivered)
  {
    var s := Towards(capacity, |history| + 1, cursor);
    CycleMoves(s, Turn(|batch|, Lost), Lost);
    var r := Cycle(s, Turn(|batch|, Lost));
    forall i | 0 <= i < |batch| ensures 1 <= r.sent[i] <= |history| && batch[i] == history[r.sent[i] - 1] {
      assert r.sent[i] == From(s) + i;
    }
  }

  /** The batch owed to a peer at the given cursor: nothing when the cursor is at the head,
      else a batch that the state machine above may fetch, taken from the history. */
  ghost predicate IsOwed(batch: seq<Bytes>, history: seq<Bytes>, capacity: nat, cursor: nat) {
    var s := Towards(capacity, |history| + 1, cursor);
    if s.head <= cursor + 1 then batch == []
    else Enabled(s, Fetch(|batch|)) && LongestRun(batch, history, From(s) - 1, BATCH_ENTRIES, BATCH_BYTES)
  }

  /** A batch has at most a thousand entries and 8 MiB, unless one entry alone is larger. */
  lemma BatchLimits(batch: seq<Bytes>, history: seq<Bytes>, capacity: nat, cursor: nat)
    requires capacity > 0 && IsOwed(batch, history, capacity, cursor)
    ensures |batch| <= 1_000 && (|batch| > 1 ==> Total(batch) <= 8_388_608)
    ensures batch == [] <==> cursor >= |history|
  {
  }

  method FetchBatch(log: DeltaLog, lastSeq: nat) returns (batch: Option<seq<Bytes>>)
    requires log.Valid()
    ensures AllReadable(log.Contents(), log.history) ==>
              batch.Some? && IsOwed(batch.value, log.history, log.capacity, lastSeq)
  {
    batch := log.GetEntriesRaw(lastSeq + 1, BATCH_ENTRIES, BATCH_BYTES);
    if AllReadable(log.Contents(), log.history) {
      ghost var s := Towards(log.capacity, |log.history| + 1, lastSeq);
      assert From(s) == Max(lastSeq + 1, Earliest(log.head, log.capacity));
    }
  }

  /** While the log is readable and the cursor is not lapped, the batch owed is the next part
      of the history, and not empty. */
  lemma OwedFollows(batch: seq<Bytes>, history: seq<Bytes>, capacity: nat, cursor: nat)
    requires IsOwed(batch, history, capacity, cursor) && cursor < |history|
    requires Earliest(|history| + 1, capacity) <= cursor + 1
    ensures batch != [] && cursor + |batch| <= |history| && batch == history[cursor..cursor + |batch|]
    ensures |batch| <= BATCH_ENTRIES
  {
  }

  class Replicator {
    /** The last sequence replicated to each peer. */
    var peerSeqs: map<string, nat>

    function Cursor(peer: string, recorded: nat): nat
      reads this
    {
      if peer in peerSeqs then peerSeqs[peer] else recorded
    }

    constructor ()
      ensures peerSeqs == map[]
    {
      peerSeqs := map[];
    }

    /** One round of replication to a peer: while the log is readable the batch is the one
        owed at the cursor, which moves only when the send succeeds. */
    method ReplicateToPeer(log: DeltaLog, peer: string, recorded: nat, delivered: bool)
      returns (batch: Option<seq<Bytes>>)
      requires log.Valid()
      modifies this
      ensures AllReadable(log.Contents(), log.history) ==>
                batch.Some? && IsOwed(batch.value, log.history, log.capacity, old(Cursor(peer, recorded)))
      ensures Cursor(peer, recorded)
              == old(Cursor(peer, recorded)) + if delivered && batch.Some? then |batch.value| else 0
      ensures forall p :: p != peer ==> (p in peerSeqs <==> p in old(peerSeqs))
      ensures forall p :: p != peer && p in peerSeqs ==> peerSeqs[p] == old(peerSeqs)[p]
    {
      if peer !in peerSeqs {
        peerSeqs := peerSeqs[peer := recorded];
      }
      var lastSeq := peerSeqs[peer];
      batch := FetchBatch(log, lastSeq);
      if batch.None? || batch.value == [] {
        return;
      }
      if delivered {
        peerSeqs := peerSeqs[peer := lastSeq + |batch.value|];
      }
    }

    /** For every cursor, lapped ones included, such a round is a cycle of the state machine. */
    method ReplicateCycle(log: DeltaLog, peer: string, recorded: nat, delivered: bool)
      returns (batch: Option<seq<Bytes>>)
      requires log.Valid() && AllReadable(log.Contents(), log.history) && Cursor(peer, recorded) + 1 < log.head
      modifies this
      ensures batch.Some?
      ensures IsCycle(batch.value, log.history, Towards(log.capacity, log.head, old(Cursor(peer, recorded))),
                      Cursor(peer, recorded), delivered)
    {
      ghost var cursor := Cursor(peer, recorded);
      batch := ReplicateToPeer(log, peer, recorded, delivered);
      OwedIsCycle(batch.value, log.history, log.capacity, cursor, delivered);
    }

    /** A round that succeeds towards a peer that is not lapped sends the next part of the
        history and moves the cursor past it. */
    method SendNext(log: DeltaLog, peer: string, recorded: nat) returns (raw: seq<Bytes>)
      requires log.Valid() && AllReadable(log.Contents(), log.history)
      requires Earliest(log.head, log.capacity) <= Cursor(peer, recorded) + 1 < log.head
      modifies this
      ensures old(Cursor(peer, recorded)) < Cursor(peer, recorded) < log.head && |raw| <= BATCH_ENTRIES
      ensures raw == log.history[old(Cursor(peer, recorded))..Cursor(peer, recorded)]
    {
      ghost var cursor := Cursor(peer, recorded);
      var batch := ReplicateToPeer(log, peer, recorded, true);
      OwedFollows(batch.value, log.history, log.capacity, cursor);
      raw := batch.value;
    }

    /** The replicator loop while sends succeed and nothing is appended: it stops with the
        cursor at the head, and a peer that was not lapped has been sent exactly the entries
        it was owed, once each and in order. */
    method ReplicateUntilIdle(log: DeltaLog, peer: string, recorded: nat) returns (sent: seq<Bytes>)
      requires log.Valid() && AllReadable(log.Contents(), log.history)
      requires Cursor(peer, recorded) < log.head
      modifies this
      ensures Cursor(peer, recorded) == log.head - 1
      ensures Earliest(log.head, log.capacity) <= old(Cursor(peer, recorded)) + 1 ==>
                sent == log.history[old(Cursor(peer, recorded))..]
    {
      sent := [];
      var lastSeq := Cursor(peer, recorded);
      ghost var start, history := lastSeq, log.history;
      while log.head > lastSeq + 1
        invariant lastSeq == Cursor(peer, recorded) && start <= lastSeq < log.head
        invariant Earliest(log.head, log.capacity) <= start + 1 ==> sent == history[start..lastSeq]
        decreases log.head - lastSeq
      {
        var batch := ReplicateToPeer(log, peer, recorded, true);
        if Earliest(log.head, log.capacity) <= start + 1 {
          OwedFollows(batch.value, history, log.capacity, lastSeq);
          assert history[start..lastSeq] + history[lastSeq..lastSeq + |batch.value|]
              == history[start..lastSeq + |batch.value|];
        }
        sent := sent + batch.value;
        lastSeq := Cursor(peer, recorded);
      }
    }
  }
}
