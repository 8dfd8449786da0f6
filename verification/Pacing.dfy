/** Runs of the replicator in which the log overtakes the cursor, and runs in which a peer moves
    the cursor back: what is sent again. */
module Pacing {
  import opened Wrappers
  import opened DeltaLog
  import opened Replication

  // ---------------------------------------------------------------- overtaken cursors

  /** A step of a run without handshakes and without failures after arrival. */
  predicate Gentle(s: State, step: Step) { !step.Rewind? && !(step.Fail? && step.outcome.Arrived?) }

  ghost predicate AllGentle(s: State, steps: seq<Step>) {
    steps == [] ||
    (AllGentle(s, steps[..|steps| - 1]) && Gentle(Execute(s, steps[..|steps| - 1]), steps[|steps| - 1]))
  }

  /** A batch that is sent follows the cursor: the log had not overtaken it. */
  predicate Paced(s: State, step: Step) {
    step.Succeed? && s.flight.Some? ==> s.flight.value.from == s.flight.value.lastSeq + 1
  }

  ghost predicate AllPaced(s: State, steps: seq<Step>) {
    steps == [] ||
    (AllPaced(s, steps[..|steps| - 1]) && Paced(Execute(s, steps[..|steps| - 1]), steps[|steps| - 1]))
  }

  ghost predicate Repeats(list: seq<nat>) { exists i, j :: 0 <= i < j < |list| && list[i] == list[j] }

  /** An entry beyond the cursor was sent. */
  ghost predicate Overshot(s: State) { exists u :: u in s.sent && u > s.cursor }

  /** The batch in flight was read at the cursor. */
  ghost predicate AtCursor(s: State) {
    s.flight.Some? ==> s.flight.value.lastSeq == s.cursor < s.flight.value.from && s.flight.value.count > 0
  }

  lemma {:induction false} FlightsAtCursor(capacity: nat, steps: seq<Step>)
    requires AllGentle(Initial(capacity, 0), steps)
    ensures AtCursor(Execute(Initial(capacity, 0), steps))
  {
    if steps != [] {
      FlightsAtCursor(capacity, steps[..|steps| - 1]);
    }
  }

  lemma RunJoins(n: nat, count: nat)
    ensures Run(1, n) + Run(n + 1, count) == Run(1, n + count)
  {
  }

  /** Paced, each entry is sent exactly once and in order. */
  lemma {:induction false} PacedInOrder(capacity: nat, steps: seq<Step>)
    requires AllGentle(Initial(capacity, 0), steps) && AllPaced(Initial(capacity, 0), steps)
    ensures var s := Execute(Initial(capacity, 0), steps); s.sent == Run(1, s.cursor)
  {
    if steps != [] {
      var s, step := Execute(Initial(capacity, 0), steps[..|steps| - 1]), steps[|steps| - 1];
      PacedInOrder(capacity, steps[..|steps| - 1]);
      FlightsAtCursor(capacity, steps[..|steps| - 1]);
      if step.Succeed? && s.flight.Some? {
        RunJoins(s.cursor, s.flight.value.count);
      }
    }
  }

  lemma RepeatsOn(list: seq<nat>, more: seq<nat>)
    requires Repeats(list)
    ensures Repeats(list + more)
  {
    var i, j :| 0 <= i < j < |list| && list[i] == list[j];
    assert (list + more)[i] == (list + more)[j];
  }

  lemma SentAgain(list: seq<nat>, more: seq<nat>, u: nat)
    requires u in list && u in more
    ensures Repeats(list + more)
  {
    var i :| 0 <= i < |list| && list[i] == u;
    var j :| 0 <= j < |more| && more[j] == u;
    assert (list + more)[i] == (list + more)[|list| + j];
  }

  lemma LappedOvershoots(s: State, step: Step)
    requires AtCursor(s) && !Paced(s, step)
    ensures Overshot(Next(s, step))
  {
    var f := s.flight.value;
    InRun(f.from, f.count, f.from + f.count - 1);
    assert f.from + f.count - 1 in Next(s, step).sent;
  }

  lemma OvershotStays(s: State, step: Step)
    requires AtCursor(s) && Gentle(s, step) && Paced(s, step) && Overshot(s)
    ensures Repeats(Next(s, step).sent) || Overshot(Next(s, step))
  {
    var u :| u in s.sent && u > s.cursor;
    if step.Succeed? && s.flight.Some? && u <= s.cursor + s.flight.value.count {
      InRun(s.flight.value.from, s.flight.value.count, u);
      SentAgain(s.sent, Run(s.flight.value.from, s.flight.value.count), u);
    } else {
      assert u in Next(s, step).sent;
    }
  }

  lemma {:induction false} LappedRepeatsOrOvershoots(capacity: nat, steps: seq<Step>)
    requires AllGentle(Initial(capacity, 0), steps) && !AllPaced(Initial(capacity, 0), steps)
    ensures var s := Execute(Initial(capacity, 0), steps); Repeats(s.sent) || Overshot(s)
  {
    var before, step := steps[..|steps| - 1], steps[|steps| - 1];
    var s := Execute(Initial(capacity, 0), before);
    FlightsAtCursor(capacity, before);
    if !Paced(s, step) {
      LappedOvershoots(s, step);
    } else {
      LappedRepeatsOrOvershoots(capacity, before);
      if Repeats(s.sent) {
        RepeatsOn(s.sent, Next(s, step).sent[|s.sent|..]);
        assert Next(s, step).sent == s.sent + Next(s, step).sent[|s.sent|..];
      } else {
        OvershotStays(s, step);
      }
    }
  }

  lemma OnceInOrder(n: nat)
    ensures !Repeats(Run(1, n))
  {
  }

  /** In every run without handshakes and late failures that is drained in the end, each entry
      was sent at most once exactly when no batch was read after the log had overtaken the
      cursor, and then all were sent in order: the cursor after such a read stays behind what
      was sent, so that some of it goes out again. */
  lemma OnceExactlyWhenPaced(capacity: nat, steps: seq<Step>)
    requires capacity > 0 && AllGentle(Initial(capacity, 0), steps)
    requires Backlog(Execute(Initial(capacity, 0), steps)) == 0
    ensures var s := Execute(Initial(capacity, 0), steps);
            && (!Repeats(s.sent) <==> AllPaced(Initial(capacity, 0), steps))
            && (s.sent == Run(1, s.cursor) <==> AllPaced(Initial(capacity, 0), steps))
  {
    var s := Execute(Initial(capacity, 0), steps);
    NothingSkipped(capacity, steps);
    OnceInOrder(s.cursor);
    if AllPaced(Initial(capacity, 0), steps) {
      PacedInOrder(capacity, steps);
    } else {
      LappedRepeatsOrOvershoots(capacity, steps);
    }
  }

  /** With one entry more than a log holds, and two successful reads, a peer that starts fresh
      is sent the second entry twice and the first never. */
  lemma OvertakenSendsTwice(capacity: nat, o: Outcome)
    requires capacity > 0
    ensures var s := Execute(Initial(capacity, 0), Appends(capacity + 1));
            Cycle(Cycle(s, Turn(1, o)), Turn(1, o)).sent == [2, 2]
  {
    AfterAppends(Initial(capacity, 0), capacity + 1);
    var s := Execute(Initial(capacity, 0), Appends(capacity + 1));
    CycleMoves(s, Turn(1, o), o);
    CycleMoves(Cycle(s, Turn(1, o)), Turn(1, o), o);
  }

  // ---------------------------------------------------------------- rewinds

  /** What successful cycles send that was not sent before. */
  lemma {:induction false} DrainSends(s: State, turns: seq<Turn>)
    requires Inv(s) && s.flight.None? && Served(s, turns) && |turns| >= Backlog(s)
    ensures var r := Cycles(s, turns);
            && s.sent <= r.sent
            && forall u :: Max(s.cursor + 1, Earliest(s.head, s.capacity)) <= u < s.head ==> u in r.sent[|s.sent|..]
    decreases |turns|
  {
    if Backlog(s) <= 0 {
      IdleStays(s, turns);
    } else {
      var t := turns[0];
      var s' := Cycle(s, t);
      CycleMoves(s, t, t.outcome);
      NextKeepsInv(s, Fetch(t.count));
      NextKeepsInv(Next(s, Fetch(t.count)), Succeed(t.outcome));
      DrainSends(s', turns[1..]);
      SplitsAt(s.sent, Run(From(s), t.count), Cycles(s', turns[1..]).sent);
      forall u | Max(s.cursor + 1, Earliest(s.head, s.capacity)) <= u < s.head
        ensures u in Cycles(s', turns[1..]).sent[|s.sent|..]
      {
        InRun(From(s), t.count, u);
      }
    }
  }

  lemma SplitsAt(a: seq<nat>, b: seq<nat>, all: seq<nat>)
    requires a + b <= all
    ensures a <= all && all[|a|..] == b + all[|a| + |b|..]
  {
  }

  /** After every run, a handshake that reports an entry the peer has applied, or none, makes the
      replicator send every live entry after it again, unless a batch is in flight. */
  lemma RewindResends(capacity: nat, steps: seq<Step>, seen: nat, turns: seq<Turn>)
    requires capacity > 0
    requires var s := Execute(Initial(capacity, 0), steps);
             && s.flight.None? && (seen == 0 || seen in s.applied)
             && Served(Next(s, Rewind(seen)), turns) && |turns| >= s.head - 1 - seen
    ensures var s := Execute(Initial(capacity, 0), steps);
            var r := Cycles(Next(s, Rewind(seen)), turns);
            && s.sent <= r.sent && r.cursor == s.head - 1
            && forall u :: Max(seen + 1, Earliest(s.head, capacity)) <= u < s.head ==> u in r.sent[|s.sent|..]
  {
    var s := Execute(Initial(capacity, 0), steps);
    NothingSkipped(capacity, steps);
    FlightsBehind(capacity, 0, steps);
    NextKeepsInv(s, Rewind(seen));
    DrainSends(Next(s, Rewind(seen)), turns);
    Drains(Next(s, Rewind(seen)), turns);
  }

  /** A handshake that arrives while a batch is in flight is undone when the send succeeds,
      whatever it reports, and takes effect when the send fails. */
  lemma RewindInFlight(s: State, seen: nat, o: Outcome)
    requires s.flight.Some? && (seen == 0 || seen in s.applied)
    ensures Next(Next(s, Rewind(seen)), Succeed(o)) == Next(s, Succeed(o))
    ensures Next(Next(s, Rewind(seen)), Fail(o)) == Next(s, Fail(o)).(cursor := seen)
  {
  }
}
