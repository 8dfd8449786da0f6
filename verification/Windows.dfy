/** The sliding windows of store.go: per key a list of event times that is appended to by
    local increments, merged into by remote entries, and pruned lazily by both the
    increments and the janitor. */
module Windows {
  import opened Wrappers
  import opened Clock

  // ---------------------------------------------------------------- lists of event times

  /** The events at or after the horizon, in order. */
  function AtOrAfter(win: seq<int>, horizon: int): (r: seq<int>)
    ensures |r| <= |win|
  {
    if win == [] then []
    else (if win[0] >= horizon then [win[0]] else []) + AtOrAfter(win[1..], horizon)
  }

  /** What an increment keeps: it counts the stale events and drops as many from the front. */
  function DropStale(win: seq<int>, horizon: int): seq<int> {
    win[|win| - |AtOrAfter(win, horizon)|..]
  }

  /** Sorted insertion that ignores a time already met. */
  function Insert(win: seq<int>, ts: int): seq<int> {
    if win == [] then [ts]
    else if win[0] == ts then win
    else if win[0] > ts then [ts] + win
    else [win[0]] + Insert(win[1..], ts)
  }

  ghost predicate Sorted(win: seq<int>) {
    forall i, j :: 0 <= i < j < |win| ==> win[i] <= win[j]
  }

  ghost predicate Increasing(win: seq<int>) {
    forall i, j :: 0 <= i < j < |win| ==> win[i] < win[j]
  }

  ghost function Elements(win: seq<int>): set<int> { set t | t in win }

  lemma {:induction false} FilterAppended(a: seq<int>, b: seq<int>, h: int)
    ensures AtOrAfter(a + b, h) == AtOrAfter(a, h) + AtOrAfter(b, h)
  {
    if a == [] {
      assert a + b == b;
    } else {
      assert (a + b)[1..] == a[1..] + b;
      FilterAppended(a[1..], b, h);
      var first, x, y := if a[0] >= h then [a[0]] else [], AtOrAfter(a[1..], h), AtOrAfter(b, h);
      assert AtOrAfter(a + b, h) == first + (x + y);
      assert first + (x + y) == first + x + y;
    }
  }

  lemma FilterOne(a: seq<int>, t: int, h: int)
    ensures AtOrAfter(a + [t], h) == AtOrAfter(a, h) + if t >= h then [t] else []
  {
    FilterAppended(a, [t], h);
    assert AtOrAfter([t], h) == (if t >= h then [t] else []) + AtOrAfter([], h);
  }

  lemma {:induction false} FilterElements(a: seq<int>, h: int, t: int)
    ensures t in AtOrAfter(a, h) <==> t in a && t >= h
  {
    if a != [] {
      FilterElements(a[1..], h, t);
      assert a == [a[0]] + a[1..];
    }
  }

  lemma {:induction false} FilterAll(a: seq<int>, h: int)
    requires forall i :: 0 <= i < |a| ==> a[i] >= h
    ensures AtOrAfter(a, h) == a
  {
    if a != [] {
      FilterAll(a[1..], h);
    }
  }

  lemma {:induction false} FilterNone(a: seq<int>, h: int)
    requires forall i :: 0 <= i < |a| ==> a[i] < h
    ensures AtOrAfter(a, h) == []
  {
    if a != [] {
      FilterNone(a[1..], h);
    }
  }

  lemma {:induction false} FilterTwice(a: seq<int>, g: int, h: int)
    requires g <= h
    ensures AtOrAfter(AtOrAfter(a, g), h) == AtOrAfter(a, h)
  {
    if a != [] {
      FilterTwice(a[1..], g, h);
      FilterAppended(if a[0] >= g then [a[0]] else [], AtOrAfter(a[1..], g), h);
    }
  }

  // ---------------------------------------------------------------- dropping stale events

  lemma StaleFirst(win: seq<int>, k: nat, h: int)
    requires k <= |win| && (forall i :: 0 <= i < k ==> win[i] < h) && (forall i :: k <= i < |win| ==> win[i] >= h)
    ensures AtOrAfter(win, h) == win[k..]
  {
    assert win == win[..k] + win[k..];
    FilterAppended(win[..k], win[k..], h);
    FilterNone(win[..k], h);
    FilterAll(win[k..], h);
  }

  /** In a sorted window dropping from the front keeps exactly the events in the window. */
  lemma SortedDrop(win: seq<int>, h: int)
    requires Sorted(win)
    ensures DropStale(win, h) == AtOrAfter(win, h)
  {
    var k := 0;
    while k < |win| && win[k] < h
      invariant 0 <= k <= |win| && forall i :: 0 <= i < k ==> win[i] < h
    {
      k := k + 1;
    }
    StaleFirst(win, k, h);
  }

  /** Dropping from the front keeps the right events exactly when the events that are
      dropped are all stale: an increment does not check, it relies on the order. */
  lemma DropExactlyWhenStaleFirst(win: seq<int>, h: int)
    ensures var k := |win| - |AtOrAfter(win, h)|;
            DropStale(win, h) == AtOrAfter(win, h) <==> forall i :: 0 <= i < k ==> win[i] < h
  {
    var k := |win| - |AtOrAfter(win, h)|;
    assert win == win[..k] + win[k..];
    FilterAppended(win[..k], win[k..], h);
    if forall i :: 0 <= i < k ==> win[i] < h {
      FilterNone(win[..k], h);
      FullLength(win[k..], h);
    }
    if DropStale(win, h) == AtOrAfter(win, h) {
      forall i | k <= i < |win| ensures win[i] >= h {
        assert win[k..][i - k] in AtOrAfter(win, h);
        FilterElements(win, h, win[i]);
      }
      FilterAll(win[k..], h);
      assert AtOrAfter(win[..k], h) == [];
      forall i | 0 <= i < k ensures win[i] < h {
        FilterElements(win[..k], h, win[i]);
        assert win[i] in win[..k];
      }
    }
  }

  lemma {:induction false} FullLength(a: seq<int>, h: int)
    requires |AtOrAfter(a, h)| == |a|
    ensures AtOrAfter(a, h) == a
  {
    if a != [] {
      FullLength(a[1..], h);
    }
  }

  // ---------------------------------------------------------------- insertion

  lemma {:induction false} InsertElements(win: seq<int>, ts: int)
    ensures Elements(Insert(win, ts)) == Elements(win) + {ts}
  {
    if win != [] {
      InsertElements(win[1..], ts);
      assert win == [win[0]] + win[1..];
      forall t ensures t in Insert(win, ts) <==> t in win || t == ts {
        if win[0] < ts {
          assert t in Insert(win[1..], ts) <==> t in Elements(Insert(win[1..], ts));
        }
      }
    }
  }

  lemma InsertPasses(t: int, win: seq<int>, ts: int)
    requires t < ts
    ensures Insert([t] + win, ts) == [t] + Insert(win, ts)
  {
  }

  lemma Regroup(a: seq<int>, b: seq<int>, c: seq<int>)
    ensures a + (b + c) == (a + b) + c
  {
  }

  /** Insertion passes over smaller times. */
  lemma {:induction false} InsertBeyond(low: seq<int>, high: seq<int>, ts: int)
    requires forall i :: 0 <= i < |low| ==> low[i] < ts
    ensures Insert(low + high, ts) == low + Insert(high, ts)
  {
    if low == [] {
      assert low + high == high;
    } else {
      var head, tail := [low[0]], low[1..];
      assert low == head + tail;
      Regroup(head, tail, high);
      InsertPasses(low[0], tail + high, ts);
      InsertBeyond(tail, high, ts);
      Regroup(head, tail, Insert(high, ts));
    }
  }

  lemma InsertPosition(win: seq<int>, ts: int, idx: nat)
    requires idx <= |win| && (forall i :: 0 <= i < idx ==> win[i] < ts) && (idx < |win| ==> win[idx] >= ts)
    ensures Insert(win, ts)
            == if idx < |win| && win[idx] == ts then win else win[..idx] + [ts] + win[idx..]
  {
    assert win == win[..idx] + win[idx..];
    InsertBeyond(win[..idx], win[idx..], ts);
    InsertBefore(win[idx..], ts);
    Regroup(win[..idx], [ts], win[idx..]);
  }

  lemma InsertBefore(high: seq<int>, ts: int)
    requires high != [] ==> high[0] >= ts
    ensures Insert(high, ts) == if high != [] && high[0] == ts then high else [ts] + high
  {
  }

  lemma TailSorted(win: seq<int>)
    requires Sorted(win) && win != []
    ensures Sorted(win[1..])
  {
  }

  lemma {:induction false} InsertSorted(win: seq<int>, ts: int)
    requires Sorted(win)
    ensures Sorted(Insert(win, ts))
  {
    if win != [] && win[0] < ts {
      TailSorted(win);
      InsertSorted(win[1..], ts);
      InsertElements(win[1..], ts);
      ConsSorted(win[0], Insert(win[1..], ts));
    }
  }

  lemma ConsSorted(t: int, tail: seq<int>)
    requires Sorted(tail) && forall u :: u in Elements(tail) ==> t <= u
    ensures Sorted([t] + tail)
  {
    forall i | 0 <= i < |tail| ensures t <= tail[i] {
      assert tail[i] in Elements(tail);
    }
  }

  lemma {:induction false} InsertIncreasing(win: seq<int>, ts: int)
    requires Increasing(win)
    ensures Increasing(Insert(win, ts))
  {
    if win != [] && win[0] < ts {
      InsertIncreasing(win[1..], ts);
      InsertElements(win[1..], ts);
      var tail := Insert(win[1..], ts);
      forall i | 0 <= i < |tail| ensures win[0] < tail[i] {
        assert tail[i] in Elements(tail);
      }
    }
  }

  /** Insertion and the horizon commute in a sorted window. */
  lemma {:induction false} FilterInsert(win: seq<int>, ts: int, h: int)
    requires Sorted(win)
    ensures AtOrAfter(Insert(win, ts), h) == if ts >= h then Insert(AtOrAfter(win, h), ts) else AtOrAfter(win, h)
  {
    if win == [] {
      assert AtOrAfter([ts], h) == (if ts >= h then [ts] else []) + AtOrAfter([], h);
    } else if win[0] == ts {
      TailSorted(win);
    } else if win[0] > ts {
      assert ([ts] + win)[1..] == win;
      if ts >= h {
        FilterAll(win, h);
      }
    } else {
      TailSorted(win);
      FilterInsert(win[1..], ts, h);
      var tail, kept := Insert(win[1..], ts), AtOrAfter(win[1..], h);
      assert ([win[0]] + tail)[1..] == tail;
      assert ([win[0]] + kept)[1..] == kept;
      assert AtOrAfter(Insert(win, ts), h) == (if win[0] >= h then [win[0]] else []) + AtOrAfter(tail, h);
      assert AtOrAfter(win, h) == if win[0] >= h then [win[0]] + kept else kept;
    }
  }

  // ---------------------------------------------------------------- merging is canonical

  /** The window after merging remote times one by one. */
  function Merged(times: seq<int>): seq<int> {
    if times == [] then [] else Insert(Merged(times[..|times| - 1]), times[|times| - 1])
  }

  lemma {:induction false} MergedIsSet(times: seq<int>)
    ensures Increasing(Merged(times)) && Elements(Merged(times)) == Elements(times)
  {
    if times != [] {
      var n := |times| - 1;
      MergedIsSet(times[..n]);
      InsertIncreasing(Merged(times[..n]), times[n]);
      InsertElements(Merged(times[..n]), times[n]);
      assert times == times[..n] + [times[n]];
    }
  }

  lemma SomeElement(win: seq<int>)
    ensures win != [] ==> Elements(win) != {}
  {
    if win != [] {
      assert win[0] in Elements(win);
    }
  }

  lemma {:induction false} IncreasingIsUnique(a: seq<int>, b: seq<int>)
    requires Increasing(a) && Increasing(b) && Elements(a) == Elements(b)
    ensures a == b
  {
    SomeElement(b);
    if a != [] {
      assert a[0] in Elements(b) && b != [];
      assert b[0] in Elements(a);
      assert a[0] == b[0];
      forall t ensures t in Elements(a[1..]) <==> t in Elements(b[1..]) {
        assert a == [a[0]] + a[1..] && b == [b[0]] + b[1..];
        assert t in Elements(a) <==> t in Elements(b);
      }
      IncreasingIsUnique(a[1..], b[1..]);
    }
  }

  /** Any order and any repetition of the same remote times leaves the same window: the
      distinct times, strictly increasing. */
  lemma MergeCanonical(times: seq<int>, others: seq<int>)
    requires Elements(times) == Elements(others)
    ensures Merged(times) == Merged(others)
  {
    MergedIsSet(times);
    MergedIsSet(others);
    IncreasingIsUnique(Merged(times), Merged(others));
  }

  // ---------------------------------------------------------------- a window over a run

  /** One window of a node beside the list that is never pruned. `pending` holds the times that
      increments have taken from the clock and not yet appended. `low` is history: the highest
      horizon at which anything may have been pruned. */
  datatype Window = Window(
    offset: int, clock: Timestamp, wall: int, low: int, pending: seq<int>, kept: seq<int>, events: seq<int>)

  /** An increment takes its time from the clock and appends it later, under a lock that other
      increments and remote entries may hold in between. */
  datatype Step =
    | Stamp(wall: int)                           // IncrementSlidingWindow takes its time
    | Record(i: nat, now: int, window: int)      // and appends it, counts and prunes
    | Remote(ts: Timestamp, wall: int)           // an accepted remote window entry
    | Observe(ts: Timestamp, wall: int)          // any other accepted remote entry
    | Clock(wall: int)                           // any other use of the node's clock
    | Janitor(now: int)

  function Initial(wall: int, offset: int): Window {
    Window(offset, Timestamp(wall, 0), wall, wall - HOUR, [], [], [])
  }

  /** The wall clock does not move backward, and the clock refuses what is too far ahead. */
  predicate Enabled(s: Window, step: Step) {
    match step
    case Stamp(wall) => s.wall <= wall
    case Record(i, now, _) => i < |s.pending| && s.wall <= now
    case Remote(ts, wall) => s.wall <= wall && !ClockSmash(ts, wall, s.offset)
    case Observe(ts, wall) => s.wall <= wall && !ClockSmash(ts, wall, s.offset)
    case Clock(wall) => s.wall <= wall
    case Janitor(now) => s.wall <= now
  }

  predicate IsStale(win: seq<int>, now: int) {
    win != [] && now - win[|win| - 1] > HOUR
  }

  function Next(s: Window, step: Step): Window {
    if !Enabled(s, step) then s
    else match step
      case Stamp(wall) =>
        var c := Tick(s.clock, wall);
        s.(clock := c, wall := wall, pending := s.pending + [c.physical])
      case Record(i, now, window) =>
        var t := s.pending[i];
        s.(wall := now, low := Max(s.low, now - window), pending := s.pending[..i] + s.pending[i + 1..],
           kept := DropStale(s.kept + [t], now - window), events := s.events + [t])
      case Remote(ts, wall) =>
        s.(clock := Merge(s.clock, ts, wall), wall := wall,
           kept := Insert(s.kept, ts.physical), events := Insert(s.events, ts.physical))
      case Observe(ts, wall) =>
        s.(clock := Merge(s.clock, ts, wall), wall := wall)
      case Clock(wall) =>
        s.(clock := Tick(s.clock, wall), wall := wall)
      case Janitor(now) =>
        s.(wall := now, low := Max(s.low, now - HOUR), kept := if IsStale(s.kept, now) then [] else s.kept)
  }

  /** The count that an increment returns. */
  function Count(s: Window, step: Step): nat
    requires step.Record? && Enabled(s, step)
  {
    |AtOrAfter(s.kept + [s.pending[step.i]], step.now - step.window)|
  }

  function Run(s: Window, steps: seq<Step>): Window {
    if steps == [] then s else Next(Run(s, steps[..|steps| - 1]), steps[|steps| - 1])
  }

  // ---------------------------------------------------------------- no time lies beyond the clock

  ghost predicate UpTo(win: seq<int>, t: int) { forall i :: 0 <= i < |win| ==> win[i] <= t }

  /** How far an accepted time may lie ahead of the wall clock. */
  function Ahead(offset: int): int { Max(0, offset) }

  ghost predicate Bounded(s: Window) {
    && s.clock.physical <= s.wall + Ahead(s.offset)
    && UpTo(s.pending, s.clock.physical) && UpTo(s.kept, s.clock.physical) && UpTo(s.events, s.clock.physical)
  }

  lemma UpToElements(win: seq<int>, t: int)
    ensures UpTo(win, t) <==> forall u :: u in Elements(win) ==> u <= t
  {
    if forall u :: u in Elements(win) ==> u <= t {
      forall i | 0 <= i < |win| ensures win[i] <= t {
        assert win[i] in Elements(win);
      }
    }
  }

  lemma InsertUpTo(win: seq<int>, ts: int, c: int, c': int)
    requires UpTo(win, c) && c <= c' && ts <= c'
    ensures UpTo(Insert(win, ts), c')
  {
    UpToElements(win, c);
    InsertElements(win, ts);
    UpToElements(Insert(win, ts), c');
  }

  lemma AppendUpTo(win: seq<int>, t: int, k: nat, c: int)
    requires UpTo(win, c) && t <= c && k <= |win + [t]|
    ensures UpTo((win + [t])[k..], c) && UpTo(win + [t], c)
  {
  }

  lemma RemoveUpTo(win: seq<int>, i: nat, c: int)
    requires UpTo(win, c) && i < |win|
    ensures UpTo(win[..i] + win[i + 1..], c)
  {
  }

  lemma RecordKeepsBounded(s: Window, step: Step)
    requires Bounded(s) && step.Record? && Enabled(s, step)
    ensures Bounded(Next(s, step))
  {
    var t, c := s.pending[step.i], s.clock.physical;
    var more := s.kept + [t];
    AppendUpTo(s.kept, t, |more| - |AtOrAfter(more, step.now - step.window)|, c);
    AppendUpTo(s.events, t, 0, c);
    RemoveUpTo(s.pending, step.i, c);
  }

  lemma RemoteKeepsBounded(s: Window, step: Step)
    requires Bounded(s) && step.Remote? && Enabled(s, step)
    ensures Bounded(Next(s, step))
  {
    var c := Merge(s.clock, step.ts, step.wall).physical;
    InsertUpTo(s.kept, step.ts.physical, s.clock.physical, c);
    InsertUpTo(s.events, step.ts.physical, s.clock.physical, c);
  }

  lemma StampKeepsBounded(s: Window, step: Step)
    requires Bounded(s) && step.Stamp? && Enabled(s, step)
    ensures Bounded(Next(s, step))
  {
    var c := Tick(s.clock, step.wall).physical;
    AppendUpTo(s.pending, c, 0, c);
  }

  lemma NextKeepsBounded(s: Window, step: Step)
    requires Bounded(s)
    ensures Bounded(Next(s, step)) && Next(s, step).offset == s.offset
  {
    if Enabled(s, step) {
      match step
      case Record(_, _, _) => RecordKeepsBounded(s, step);
      case Remote(_, _) => RemoteKeepsBounded(s, step);
      case Stamp(_) => StampKeepsBounded(s, step);
      case _ =>
    }
  }

  /** Over every run no time that was taken, merged or appended lies further ahead of the wall
      clock than the clock accepts. */
  lemma {:induction false} RunIsBounded(wall: int, offset: int, steps: seq<Step>)
    ensures var s := Run(Initial(wall, offset), steps); Bounded(s) && s.offset == offset
  {
    if steps != [] {
      RunIsBounded(wall, offset, steps[..|steps| - 1]);
      NextKeepsBounded(Run(Initial(wall, offset), steps[..|steps| - 1]), steps[|steps| - 1]);
    }
  }

  // ---------------------------------------------------------------- times appended in order

  /** An increment appends a time that is not before any recorded already. */
  ghost predicate InOrder(s: Window, step: Step) {
    step.Record? && Enabled(s, step) ==> UpTo(s.events, s.pending[step.i])
  }

  ghost predicate Orderly(s: Window, steps: seq<Step>) {
    steps == [] || (Orderly(s, steps[..|steps| - 1]) && InOrder(Run(s, steps[..|steps| - 1]), steps[|steps| - 1]))
  }

  ghost predicate SameFrom(s: Window, h: int) { AtOrAfter(s.kept, h) == AtOrAfter(s.events, h) }

  ghost predicate Inv(s: Window) {
    && Sorted(s.kept) && Sorted(s.events) && Elements(s.kept) <= Elements(s.events)
    && (forall h :: h >= s.low ==> SameFrom(s, h))
  }

  lemma AppendSorted(win: seq<int>, t: int)
    requires Sorted(win) && UpTo(win, t)
    ensures Sorted(win + [t])
  {
  }

  lemma SuffixSorted(win: seq<int>, k: nat)
    requires Sorted(win) && k <= |win|
    ensures Sorted(win[k..]) && Elements(win[k..]) <= Elements(win)
  {
  }

  lemma AppendElements(win: seq<int>, t: int)
    ensures Elements(win + [t]) == Elements(win) + {t}
  {
  }

  lemma RecordSorted(s: Window, step: Step)
    requires Inv(s) && step.Record? && Enabled(s, step) && InOrder(s, step)
    ensures Sorted(s.kept + [s.pending[step.i]]) && Sorted(s.events + [s.pending[step.i]])
    ensures Elements(s.kept + [s.pending[step.i]]) <= Elements(s.events + [s.pending[step.i]])
  {
    var t := s.pending[step.i];
    UpToElements(s.kept, t);
    UpToElements(s.events, t);
    AppendSorted(s.kept, t);
    AppendSorted(s.events, t);
    AppendElements(s.kept, t);
    AppendElements(s.events, t);
  }

  lemma RecordSame(s: Window, step: Step, h: int)
    requires step.Record? && Enabled(s, step) && SameFrom(s, h) && h >= step.now - step.window
    requires Sorted(s.kept + [s.pending[step.i]])
    ensures SameFrom(Next(s, step), h)
  {
    var t, h0 := s.pending[step.i], step.now - step.window;
    SortedDrop(s.kept + [t], h0);
    FilterTwice(s.kept + [t], h0, h);
    FilterOne(s.kept, t, h);
    FilterOne(s.events, t, h);
  }

  lemma RecordKeepsInv(s: Window, step: Step)
    requires Inv(s) && step.Record? && Enabled(s, step) && InOrder(s, step)
    ensures Inv(Next(s, step))
  {
    var more := s.kept + [s.pending[step.i]];
    RecordSorted(s, step);
    SuffixSorted(more, |more| - |AtOrAfter(more, step.now - step.window)|);
    forall h | h >= Next(s, step).low ensures SameFrom(Next(s, step), h) {
      RecordSame(s, step, h);
    }
  }

  lemma RemoteKeepsInv(s: Window, step: Step)
    requires Inv(s) && step.Remote? && Enabled(s, step)
    ensures Inv(Next(s, step))
  {
    var t := step.ts.physical;
    InsertSorted(s.kept, t);
    InsertSorted(s.events, t);
    InsertElements(s.kept, t);
    InsertElements(s.events, t);
    forall h | h >= s.low ensures SameFrom(Next(s, step), h) {
      assert SameFrom(s, h);
      FilterInsert(s.kept, t, h);
      FilterInsert(s.events, t, h);
    }
  }

  lemma JanitorKeepsInv(s: Window, step: Step)
    requires Inv(s) && step.Janitor? && Enabled(s, step)
    ensures Inv(Next(s, step))
  {
    var s' := Next(s, step);
    forall h | h >= s'.low ensures SameFrom(s', h) {
      assert SameFrom(s, h);
      if IsStale(s.kept, step.now) {
        FilterNone(s.kept, h);
      }
    }
  }

  lemma NextKeepsInv(s: Window, step: Step)
    requires Inv(s) && InOrder(s, step)
    ensures Inv(Next(s, step))
  {
    if Enabled(s, step) {
      match step
      case Record(_, _, _) => RecordKeepsInv(s, step);
      case Remote(_, _) => RemoteKeepsInv(s, step);
      case Janitor(_) => JanitorKeepsInv(s, step);
      case _ =>
        forall h | h >= s.low ensures SameFrom(Next(s, step), h) {
          assert SameFrom(s, h);
        }
    }
  }

  lemma {:induction false} RunKeepsInv(wall: int, offset: int, steps: seq<Step>)
    requires Orderly(Initial(wall, offset), steps)
    ensures Inv(Run(Initial(wall, offset), steps))
  {
    if steps != [] {
      RunKeepsInv(wall, offset, steps[..|steps| - 1]);
      NextKeepsInv(Run(Initial(wall, offset), steps[..|steps| - 1]), steps[|steps| - 1]);
    }
  }

  /** The increment returns the number of events ever recorded in its window. */
  ghost predicate ExactAt(s: Window, step: Step)
    requires step.Record? && Enabled(s, step)
  {
    Count(s, step) == |AtOrAfter(Next(s, step).events, step.now - step.window)|
  }

  lemma CountFrom(s: Window, step: Step)
    requires step.Record? && Enabled(s, step) && SameFrom(s, step.now - step.window)
    ensures ExactAt(s, step)
  {
    var t, h := s.pending[step.i], step.now - step.window;
    FilterOne(s.kept, t, h);
    FilterOne(s.events, t, h);
  }

  /** Over every run that appends in order, an increment whose horizon is not before one
      already pruned at returns the number of events ever recorded at or after its horizon. */
  lemma CountIsExact(wall: int, offset: int, steps: seq<Step>, step: Step)
    requires Orderly(Initial(wall, offset), steps)
    requires step.Record? && Enabled(Run(Initial(wall, offset), steps), step)
    requires Run(Initial(wall, offset), steps).low <= step.now - step.window
    ensures ExactAt(Run(Initial(wall, offset), steps), step)
  {
    RunKeepsInv(wall, offset, steps);
    CountFrom(Run(Initial(wall, offset), steps), step);
  }

  // ---------------------------------------------------------------- which windows count exactly

  /** The windows of the increments of a run, in order. */
  function WindowsOf(steps: seq<Step>): seq<int> {
    if steps == [] then []
    else
      var last := steps[|steps| - 1];
      WindowsOf(steps[..|steps| - 1]) + if last.Record? then [last.window] else []
  }

  predicate AtLeast(ws: seq<int>, w: int) { forall i :: 0 <= i < |ws| ==> w <= ws[i] }

  /** A window that ends behind every time the clock accepts. It never counts anything. */
  predicate Futile(w: int, offset: int) { w < -Ahead(offset) }

  predicate Fits(ws: seq<int>, w: int, offset: int) { Futile(w, offset) || (w <= HOUR && AtLeast(ws, w)) }

  /** No window is longer than an earlier one, or than an hour, except futile ones. */
  predicate Shrinking(ws: seq<int>, offset: int) { forall j :: 0 <= j < |ws| ==> Fits(ws[..j], ws[j], offset) }

  ghost predicate Exact(wall: int, offset: int, steps: seq<Step>, step: Step) {
    var s := Run(Initial(wall, offset), steps);
    step.Record? && Enabled(s, step) ==> ExactAt(s, step)
  }

  lemma {:induction false} StaysAhead(wall: int, offset: int, steps: seq<Step>, w: int)
    requires w <= HOUR && AtLeast(WindowsOf(steps), w)
    ensures var s := Run(Initial(wall, offset), steps); s.low <= s.wall - w
  {
    if steps != [] {
      var before, last := steps[..|steps| - 1], steps[|steps| - 1];
      var ws := WindowsOf(before);
      forall i | 0 <= i < |ws| ensures w <= ws[i] {
        assert WindowsOf(steps)[i] == ws[i];
      }
      if last.Record? {
        assert WindowsOf(steps)[|ws|] == last.window;
      }
      StaysAhead(wall, offset, before, w);
    }
  }

  lemma FutileIsExact(s: Window, step: Step)
    requires Bounded(s) && step.Record? && Enabled(s, step) && Futile(step.window, s.offset)
    ensures ExactAt(s, step)
  {
    FilterNone(s.kept, step.now - step.window);
    FilterNone(s.events, step.now - step.window);
    CountFrom(s, step);
  }

  /** The lazily pruned window agrees with the list that is never pruned: an increment whose
      window is at most an hour and no longer than any before it on the key counts exactly,
      over every run of increments that append in order, remote entries and janitor passes. */
  lemma ShrinkingWindowCounts(wall: int, offset: int, steps: seq<Step>, step: Step)
    requires Orderly(Initial(wall, offset), steps)
    requires step.Record? && Fits(WindowsOf(steps), step.window, offset)
    ensures Exact(wall, offset, steps, step)
  {
    var s := Run(Initial(wall, offset), steps);
    RunIsBounded(wall, offset, steps);
    if Enabled(s, step) {
      if Futile(step.window, offset) {
        FutileIsExact(s, step);
      } else {
        StaysAhead(wall, offset, steps, step.window);
        CountIsExact(wall, offset, steps, step);
      }
    }
  }

  lemma RunOneMore(s: Window, steps: seq<Step>, step: Step)
    ensures Run(s, steps + [step]) == Next(Run(s, steps), step)
    ensures WindowsOf(steps + [step]) == WindowsOf(steps) + if step.Record? then [step.window] else []
    ensures Orderly(s, steps + [step]) <==> Orderly(s, steps) && InOrder(Run(s, steps), step)
  {
    assert (steps + [step])[..|steps|] == steps;
  }

  /** An increment that nothing comes in between of. */
  function Increment(wall: int, now: int, window: int): seq<Step> { [Stamp(wall), Record(0, now, window)] }

  function Incremented(s: Window, wall: int, now: int, window: int): Window {
    Next(Next(s, Stamp(wall)), Record(0, now, window))
  }

  lemma StampIsInOrder(s: Window, wall: int, now: int, window: int)
    requires Bounded(s) && s.pending == [] && s.wall <= wall <= now
    ensures var s' := Next(s, Stamp(wall));
            && Enabled(s', Record(0, now, window)) && InOrder(s', Record(0, now, window))
            && s'.pending == [Max(wall, s.clock.physical)] && s'.kept == s.kept && s'.events == s.events
  {
  }

  lemma RunIncrement(s: Window, steps: seq<Step>, wall: int, now: int, window: int)
    requires var t := Run(s, steps); Bounded(t) && t.pending == [] && t.wall <= wall <= now
    requires Orderly(s, steps)
    ensures Run(s, steps + Increment(wall, now, window)) == Incremented(Run(s, steps), wall, now, window)
    ensures WindowsOf(steps + Increment(wall, now, window)) == WindowsOf(steps) + [window]
    ensures Orderly(s, steps + Increment(wall, now, window))
  {
    var stamp, record := Stamp(wall), Record(0, now, window);
    RunOneMore(s, steps, stamp);
    RunOneMore(s, steps + [stamp], record);
    StampIsInOrder(Run(s, steps), wall, now, window);
    assert steps + Increment(wall, now, window) == steps + [stamp] + [record];
  }

  /** Increments at one instant. */
  function Burst(ws: seq<int>): seq<Step> {
    if ws == [] then [] else Burst(ws[..|ws| - 1]) + Increment(0, 0, ws[|ws| - 1])
  }

  lemma IncrementAtZero(s: Window, w: int)
    requires Bounded(s) && s.wall == 0 && s.clock.physical == 0 && s.pending == []
    ensures var s' := Incremented(s, 0, 0, w); s'.wall == 0 && s'.clock.physical == 0 && s'.pending == []
  {
    StampIsInOrder(s, 0, 0, w);
  }

  lemma {:induction false} AfterBurst(ws: seq<int>, offset: int)
    ensures WindowsOf(Burst(ws)) == ws && Orderly(Initial(0, offset), Burst(ws))
    ensures var s := Run(Initial(0, offset), Burst(ws)); s.wall == 0 && s.clock.physical == 0 && s.pending == []
  {
    if ws != [] {
      var n := |ws| - 1;
      AfterBurst(ws[..n], offset);
      RunIsBounded(0, offset, Burst(ws[..n]));
      RunIncrement(Initial(0, offset), Burst(ws[..n]), 0, 0, ws[n]);
      IncrementAtZero(Run(Initial(0, offset), Burst(ws[..n])), ws[n]);
      assert ws == ws[..n] + [ws[n]];
    }
  }

  /** A state at time zero with no increment under way. */
  ghost predicate Idle(s: Window) { Inv(s) && Bounded(s) && s.wall == 0 && s.pending == [] }

  lemma RemoteArrives(s: Window, t: int)
    requires Idle(s) && t <= s.offset
    ensures var s' := Next(s, Remote(Timestamp(t, 0), 0));
            && Idle(s') && s'.low == s.low && s'.offset == s.offset
            && s'.clock.physical == Max(Max(0, s.clock.physical), t) && t in s'.kept && t in s'.events
  {
    var step := Remote(Timestamp(t, 0), 0);
    NextKeepsInv(s, step);
    NextKeepsBounded(s, step);
    InsertElements(s.kept, t);
    InsertElements(s.events, t);
    var s' := Next(s, step);
    assert t in Elements(s'.kept) && t in Elements(s'.events);
  }

  lemma BurstThenRemote(ws: seq<int>, offset: int, t: int)
    requires t <= offset
    ensures var steps := Burst(ws) + [Remote(Timestamp(t, 0), 0)];
            var s := Run(Initial(0, offset), steps);
            && WindowsOf(steps) == ws && Orderly(Initial(0, offset), steps)
            && Idle(s) && s.offset == offset && s.clock.physical == Max(0, t) && t in s.kept && t in s.events
            && s.low == Run(Initial(0, offset), Burst(ws)).low
  {
    AfterBurst(ws, offset);
    RunKeepsInv(0, offset, Burst(ws));
    RunIsBounded(0, offset, Burst(ws));
    RemoteArrives(Run(Initial(0, offset), Burst(ws)), t);
    RunOneMore(Initial(0, offset), Burst(ws), Remote(Timestamp(t, 0), 0));
  }

  lemma FilterStrict(a: seq<int>, g: int, h: int, t: int)
    requires g <= t < h && t in a
    ensures |AtOrAfter(a, h)| < |AtOrAfter(a, g)|
  {
    var kept := AtOrAfter(a, g);
    FilterTwice(a, g, h);
    FilterElements(a, g, t);
    if |AtOrAfter(kept, h)| == |kept| {
      FullLength(kept, h);
    }
  }

  /** What both lists hold from the horizon on, one of them may hold before it. */
  lemma MoreEvents(kept: seq<int>, events: seq<int>, t: int, g: int, h: int, u: int)
    requires AtOrAfter(kept, h) == kept == AtOrAfter(events, h) && g <= u < h && u in events
    ensures |AtOrAfter(kept + [t], g)| < |AtOrAfter(events + [t], g)|
  {
    FilterStrict(events, g, h, u);
    FilterOne(kept, t, g);
    FilterOne(events, t, g);
  }

  lemma JanitorEmpties(s: Window)
    requires Idle(s) && s.clock.physical == 0 && 0 in s.kept
    ensures var s' := Next(s, Janitor(HOUR + 1));
            && s'.kept == [] && s'.events == s.events && s'.wall == HOUR + 1 && s'.clock == s.clock
            && s'.pending == []
  {
    assert s.kept[|s.kept| - 1] == 0;
  }

  /** The count of a whole increment. */
  ghost predicate MissesAfter(s: Window, wall: int, now: int, w: int) {
    var s', step := Next(s, Stamp(wall)), Record(0, now, w);
    Enabled(s', step) && !ExactAt(s', step)
  }

  lemma EmptyMisses(s: Window, w: int)
    requires Bounded(s) && s.pending == [] && s.wall == HOUR + 1 && s.kept == [] && 0 in s.events && w > HOUR
    ensures MissesAfter(s, HOUR + 1, HOUR + 1, w)
  {
    var h := HOUR + 1 - w;
    StampIsInOrder(s, HOUR + 1, HOUR + 1, w);
    FilterElements(s.events, h, 0);
    FilterOne([], Next(s, Stamp(HOUR + 1)).pending[0], h);
    FilterOne(s.events, Next(s, Stamp(HOUR + 1)).pending[0], h);
  }

  /** A run that appends in order, with these windows, and an increment that counts wrong. */
  ghost predicate Misses(offset: int, steps: seq<Step>, step: Step, ws: seq<int>, w: int) {
    && step.Record? && step.window == w && WindowsOf(steps) == ws
    && Orderly(Initial(0, offset), steps) && !Exact(0, offset, steps, step)
  }

  lemma MissIsRun(steps: seq<Step>, offset: int, at: int, w: int)
    requires Orderly(Initial(0, offset), steps) && MissesAfter(Run(Initial(0, offset), steps), at, at, w)
    ensures Misses(offset, steps + [Stamp(at)], Record(0, at, w), WindowsOf(steps), w)
  {
    RunOneMore(Initial(0, offset), steps, Stamp(at));
  }

  /** A window of more than an hour misses what the janitor removed. */
  lemma LongWindowMisses(ws: seq<int>, offset: int, w: int) returns (steps: seq<Step>, step: Step)
    requires w > HOUR && offset >= 0
    ensures Misses(offset, steps, step, ws, w)
  {
    var s0, before, janitor := Initial(0, offset), Burst(ws) + [Remote(Timestamp(0, 0), 0)], Janitor(HOUR + 1);
    BurstThenRemote(ws, offset, 0);
    JanitorEmpties(Run(s0, before));
    NextKeepsBounded(Run(s0, before), janitor);
    RunOneMore(s0, before, janitor);
    EmptyMisses(Run(s0, before + [janitor]), w);
    MissIsRun(before + [janitor], offset, HOUR + 1, w);
    steps, step := before + [janitor] + [Stamp(HOUR + 1)], Record(0, HOUR + 1, w);
  }

  /** From the horizon on both lists hold the same, and the pruned one nothing before it. */
  ghost predicate PrunedAt(s: Window, h: int) { AtOrAfter(s.kept, h) == s.kept == AtOrAfter(s.events, h) }

  lemma KeepsFiltered(win: seq<int>, h: int)
    requires Sorted(win)
    ensures AtOrAfter(DropStale(win, h), h) == DropStale(win, h)
  {
    SortedDrop(win, h);
    FilterTwice(win, h, h);
  }

  lemma ShorterPrunes(s: Window, shorter: int)
    requires Idle(s) && (Futile(shorter, s.offset) || s.low <= -shorter)
    ensures PrunedAt(Incremented(s, 0, 0, shorter), -shorter)
  {
    var s', step := Next(s, Stamp(0)), Record(0, 0, shorter);
    NextKeepsInv(s, Stamp(0));
    NextKeepsBounded(s, Stamp(0));
    StampIsInOrder(s, 0, 0, shorter);
    RecordSorted(s', step);
    KeepsFiltered(s'.kept + [s'.pending[0]], -shorter);
    NextKeepsInv(s', step);
    NextKeepsBounded(s', step);
    FilterSame(Next(s', step), -shorter);
  }

  lemma FilterSame(s: Window, h: int)
    requires Inv(s) && Bounded(s) && (h >= s.low || h > s.clock.physical)
    ensures SameFrom(s, h)
  {
    if h < s.low {
      FilterNone(s.kept, h);
      FilterNone(s.events, h);
    }
  }

  lemma EventsStay(s: Window, shorter: int, t: int)
    requires Idle(s) && t in s.events
    ensures var s' := Incremented(s, 0, 0, shorter);
            t in s'.events && s'.wall == 0 && s'.pending == [] && Bounded(s')
  {
    StampIsInOrder(s, 0, 0, shorter);
    NextKeepsBounded(s, Stamp(0));
    NextKeepsBounded(Next(s, Stamp(0)), Record(0, 0, shorter));
  }

  lemma CountsFewer(s: Window, shorter: int, w: int)
    requires Bounded(s) && s.wall == 0 && s.pending == [] && shorter < w && -w in s.events && PrunedAt(s, -shorter)
    ensures MissesAfter(s, 0, 0, w)
  {
    StampIsInOrder(s, 0, 0, w);
    MoreEvents(s.kept, s.events, Next(s, Stamp(0)).pending[0], -w, -shorter, -w);
  }

  lemma ShorterThenLonger(s: Window, shorter: int, w: int)
    requires Idle(s) && (Futile(shorter, s.offset) || s.low <= -shorter) && shorter < w && -w in s.events
    ensures MissesAfter(Incremented(s, 0, 0, shorter), 0, 0, w)
  {
    ShorterPrunes(s, shorter);
    EventsStay(s, shorter, -w);
    CountsFewer(Incremented(s, 0, 0, shorter), shorter, w);
  }

  /** A longer window after a shorter one misses what the shorter one pruned. */
  lemma LongerWindowMisses(ws: seq<int>, offset: int, shorter: int, w: int) returns (steps: seq<Step>, step: Step)
    requires offset >= 0 && Fits(ws, shorter, offset) && shorter < w && !Futile(w, offset)
    ensures Misses(offset, steps, step, ws + [shorter], w)
  {
    var s0, before := Initial(0, offset), Burst(ws) + [Remote(Timestamp(-w, 0), 0)];
    BurstThenRemote(ws, offset, -w);
    RunIncrement(s0, before, 0, 0, shorter);
    if !Futile(shorter, offset) {
      AfterBurst(ws, offset);
      StaysAhead(0, offset, Burst(ws), shorter);
    }
    ShorterThenLonger(Run(s0, before), shorter, w);
    MissIsRun(before + Increment(0, 0, shorter), offset, 0, w);
    steps, step := before + Increment(0, 0, shorter) + [Stamp(0)], Record(0, 0, w);
  }

  /** The first window that is longer than an earlier one, or than an hour. */
  lemma {:induction false} FirstGrowth(ws: seq<int>, offset: int, n: nat) returns (j: nat)
    requires n <= |ws| && !Shrinking(ws[..n], offset)
    ensures j < n && Shrinking(ws[..j], offset) && !Shrinking(ws[..j + 1], offset)
  {
    if Shrinking(ws[..n - 1], offset) {
      j := n - 1;
    } else {
      j := FirstGrowth(ws, offset, n - 1);
    }
  }

  lemma {:induction false} GrowthDoesNotFit(ws: seq<int>, offset: int, j: nat)
    requires j < |ws| && Shrinking(ws[..j], offset) && !Shrinking(ws[..j + 1], offset)
    ensures !Fits(ws[..j], ws[j], offset)
    ensures j > 0 ==> Fits(ws[..j - 1], ws[j - 1], offset)
  {
    forall i | 0 <= i < j ensures Fits(ws[..i], ws[i], offset) {
      assert ws[..j][i] == ws[i] && ws[..j][..i] == ws[..i];
    }
    if Fits(ws[..j], ws[j], offset) {
      var front := ws[..j + 1];
      forall i | 0 <= i <= j ensures Fits(front[..i], front[i], offset) {
        assert front[..i] == ws[..i];
      }
    }
  }

  lemma GrowthIsNext(ws: seq<int>, offset: int, j: nat)
    requires j < |ws| && !Fits(ws[..j], ws[j], offset) && ws[j] <= HOUR
    requires j > 0 ==> Fits(ws[..j - 1], ws[j - 1], offset)
    ensures j > 0 && ws[j - 1] < ws[j]
  {
    var i :| 0 <= i < |ws[..j]| && ws[..j][i] < ws[j];
    if i < j - 1 {
      assert ws[..j - 1][i] == ws[i];
    }
  }

  /** The increments up to and including the step use the first of these windows, in order. */
  predicate Uses(steps: seq<Step>, step: Step, ws: seq<int>) {
    step.Record? && WindowsOf(steps) + [step.window] <= ws
  }

  /** Whatever the schedule, as long as times are appended in order, every increment counts
      exactly. */
  ghost predicate ExactInOrder(ws: seq<int>, offset: int) {
    forall wall: int, steps: seq<Step>, step: Step ::
      Uses(steps, step, ws) && Orderly(Initial(wall, offset), steps) ==> Exact(wall, offset, steps, step)
  }

  lemma UsedWindow(steps: seq<Step>, step: Step, ws: seq<int>)
    requires Uses(steps, step, ws)
    ensures var j := |WindowsOf(steps)|; j < |ws| && ws[j] == step.window && ws[..j] == WindowsOf(steps)
  {
    var j := |WindowsOf(steps)|;
    assert ws[j] == (WindowsOf(steps) + [step.window])[j];
  }

  lemma ShrinkingIsExact(ws: seq<int>, offset: int)
    requires Shrinking(ws, offset)
    ensures ExactInOrder(ws, offset)
  {
    forall wall: int, steps: seq<Step>, step: Step | Uses(steps, step, ws) && Orderly(Initial(wall, offset), steps)
      ensures Exact(wall, offset, steps, step)
    {
      UsedWindow(steps, step, ws);
      ShrinkingWindowCounts(wall, offset, steps, step);
    }
  }

  lemma GrowingMisses(ws: seq<int>, offset: int, j: nat) returns (steps: seq<Step>, step: Step)
    requires offset >= 0 && j < |ws| && Shrinking(ws[..j], offset) && !Shrinking(ws[..j + 1], offset)
    ensures Misses(offset, steps, step, ws[..j], ws[j])
  {
    GrowthDoesNotFit(ws, offset, j);
    if ws[j] > HOUR {
      steps, step := LongWindowMisses(ws[..j], offset, ws[j]);
    } else {
      GrowthIsNext(ws, offset, j);
      steps, step := LongerWindowMisses(ws[..j - 1], offset, ws[j - 1], ws[j]);
      assert ws[..j - 1] + [ws[j - 1]] == ws[..j];
    }
  }

  lemma PrefixIsUsed(steps: seq<Step>, step: Step, ws: seq<int>, j: nat)
    requires j < |ws| && step.Record? && WindowsOf(steps) == ws[..j] && step.window == ws[j]
    ensures Uses(steps, step, ws)
  {
    assert ws[..j] + [ws[j]] == ws[..j + 1];
  }

  /** The successive windows of the increments on a key count exactly under every schedule that
      appends in order exactly when none of them is longer than an earlier one or than an
      hour, futile ones aside. */
  lemma ExactExactlyWhenShrinking(ws: seq<int>, offset: int)
    requires offset >= 0
    ensures ExactInOrder(ws, offset) <==> Shrinking(ws, offset)
  {
    if Shrinking(ws, offset) {
      ShrinkingIsExact(ws, offset);
    } else {
      assert ws[..|ws|] == ws;
      var j := FirstGrowth(ws, offset, |ws|);
      var steps, step := GrowingMisses(ws, offset, j);
      PrefixIsUsed(steps, step, ws, j);
    }
  }

  // ---------------------------------------------------------------- times appended in any order

  /** Whatever the schedule, every increment counts exactly. */
  ghost predicate ExactInAnyOrder(ws: seq<int>, offset: int) {
    forall wall: int, steps: seq<Step>, step: Step ::
      Uses(steps, step, ws) ==> Exact(wall, offset, steps, step)
  }

  /** At most the first window can count anything. */
  predicate Alone(ws: seq<int>, offset: int) {
    && (ws != [] ==> ws[0] <= HOUR)
    && forall j :: 0 < j < |ws| ==> Futile(ws[j], offset)
  }

  lemma {:induction false} NoneRecorded(s: Window, steps: seq<Step>)
    requires WindowsOf(steps) == []
    ensures Orderly(s, steps)
  {
    if steps != [] {
      NoneRecorded(s, steps[..|steps| - 1]);
    }
  }

  lemma AloneIsExact(ws: seq<int>, offset: int)
    requires Alone(ws, offset)
    ensures ExactInAnyOrder(ws, offset)
  {
    forall wall: int, steps: seq<Step>, step: Step | Uses(steps, step, ws) ensures Exact(wall, offset, steps, step) {
      UsedWindow(steps, step, ws);
      var s := Run(Initial(wall, offset), steps);
      if WindowsOf(steps) == [] {
        NoneRecorded(Initial(wall, offset), steps);
        ShrinkingWindowCounts(wall, offset, steps, step);
      } else if Enabled(s, step) {
        RunIsBounded(wall, offset, steps);
        FutileIsExact(s, step);
      }
    }
  }

  /** Up to the second increment: the first takes its time, a remote event is merged, and the
      first is appended behind it. */
  function Overtaken(first: int, t: int): seq<Step> {
    [Stamp(0), Remote(Timestamp(t, 0), HOUR + 1), Record(0, HOUR + 1, first), Stamp(HOUR + 1)]
  }

  lemma TwoSteps(s: Window, steps: seq<Step>, a: Step, b: Step)
    ensures Run(s, steps + [a]) == Next(Run(s, steps), a) && Run(s, steps + [a, b]) == Next(Run(s, steps + [a]), b)
    ensures var ws := WindowsOf(steps) + if a.Record? then [a.window] else [];
            WindowsOf(steps + [a, b]) == ws + if b.Record? then [b.window] else []
  {
    RunOneMore(s, steps, a);
    RunOneMore(s, steps + [a], b);
    assert steps + [a] + [b] == steps + [a, b];
  }

  /** The first two steps: one time pending, a later one merged. */
  lemma RemoteOvertakes(t: int, offset: int)
    requires 0 < t <= HOUR + 1 + offset
    ensures var steps := [Stamp(0), Remote(Timestamp(t, 0), HOUR + 1)];
            var s := Run(Initial(0, offset), steps);
            && WindowsOf(steps) == [] && s.wall == HOUR + 1 && s.clock.physical == Max(HOUR + 1, t)
            && s.pending == [0] && s.kept == [t] && s.events == [t]
  {
    var a, b := Stamp(0), Remote(Timestamp(t, 0), HOUR + 1);
    TwoSteps(Initial(0, offset), [], a, b);
    assert [] + [a] == [a] && [] + [a, b] == [a, b];
  }

  lemma DropsFront(t: int, h: int)
    requires 0 < h <= t
    ensures DropStale([t] + [0], h) == [0]
  {
    FilterOne([t], 0, h);
  }

  /** The last two: the pending time is appended behind the later one, and another is taken. */
  lemma RecordDropsLater(s: Window, first: int, t: int)
    requires s.wall == HOUR + 1 && s.clock.physical == Max(HOUR + 1, t)
    requires s.pending == [0] && s.kept == [t] && s.events == [t] && 0 < HOUR + 1 - first <= t
    ensures var s' := Next(Next(s, Record(0, HOUR + 1, first)), Stamp(HOUR + 1));
            && s'.wall == HOUR + 1 && s'.pending == [Max(HOUR + 1, t)] && s'.kept == [0] && s'.events == [t, 0]
  {
    DropsFront(t, HOUR + 1 - first);
  }

  lemma OvertakenRun(first: int, t: int, offset: int)
    requires 0 < HOUR + 1 - first <= t <= HOUR + 1 + offset
    ensures var s := Run(Initial(0, offset), Overtaken(first, t));
            && s.wall == HOUR + 1 && s.pending == [Max(HOUR + 1, t)] && s.kept == [0] && s.events == [t, 0]
    ensures WindowsOf(Overtaken(first, t)) == [first]
  {
    var before, c, d := [Stamp(0), Remote(Timestamp(t, 0), HOUR + 1)], Record(0, HOUR + 1, first), Stamp(HOUR + 1);
    RemoteOvertakes(t, offset);
    TwoSteps(Initial(0, offset), before, c, d);
    RecordDropsLater(Run(Initial(0, offset), before), first, t);
    assert before + [c, d] == Overtaken(first, t);
  }

  /** An increment that takes its time before a remote event is merged and is appended after
      it drops the fresh event instead of its own stale one: whatever the two windows, the
      next increment on the key can miss the event. */
  lemma InterleavedIncrementDropsFresh(first: int, second: int, offset: int)
    requires second <= first <= HOUR && -offset <= second
    ensures var steps := Overtaken(first, HOUR + 1 - second);
            && WindowsOf(steps) == [first]
            && !Exact(0, offset, steps, Record(0, HOUR + 1, second))
  {
    var t := HOUR + 1 - second;
    OvertakenRun(first, t, offset);
    StaleIsKept(Run(Initial(0, offset), Overtaken(first, t)), t, Max(HOUR + 1, t), second);
  }

  lemma StaleIsKept(s: Window, t: int, u: int, w: int)
    requires s.wall == HOUR + 1 && s.pending == [u] && s.kept == [0] && s.events == [t, 0]
    requires t == HOUR + 1 - w && 0 < t <= u
    ensures Enabled(s, Record(0, HOUR + 1, w)) && !ExactAt(s, Record(0, HOUR + 1, w))
  {
    FilterOne([0], u, t);
    FilterOne([t, 0], u, t);
  }

  /** Without an order of appending, the increments on a key count exactly under every schedule
      exactly when only the first can count anything at all: two increments are enough to
      lose an event whatever their windows. */
  lemma ExactExactlyWhenAlone(ws: seq<int>, offset: int)
    requires offset >= 0
    ensures ExactInAnyOrder(ws, offset) <==> Alone(ws, offset)
  {
    if Alone(ws, offset) {
      AloneIsExact(ws, offset);
    } else if !Shrinking(ws, offset) {
      ExactExactlyWhenShrinking(ws, offset);
    } else {
      SecondCounts(ws, offset);
      InterleavedIncrementDropsFresh(ws[0], ws[1], offset);
      PrefixIsUsed(Overtaken(ws[0], HOUR + 1 - ws[1]), Record(0, HOUR + 1, ws[1]), ws, 1);
    }
  }

  lemma SecondCounts(ws: seq<int>, offset: int)
    requires offset >= 0 && Shrinking(ws, offset) && !Alone(ws, offset)
    ensures |ws| > 1 && ws[1] <= ws[0] <= HOUR && !Futile(ws[1], offset)
  {
    assert ws != [] && Fits(ws[..0], ws[0], offset);
    var j :| 0 < j < |ws| && !Futile(ws[j], offset);
    assert Fits(ws[..j], ws[j], offset) && Fits(ws[..1], ws[1], offset);
    assert ws[..j][0] == ws[0];
    if j > 1 {
      assert ws[..j][1] == ws[1];
    }
    assert ws[..1][0] == ws[0];
  }

  // ---------------------------------------------------------------- the store's windows

  lemma ShiftedUp(was: seq<int>, win: seq<int>, idx: nat, len: nat, ts: int)
    requires idx <= len < |was| == |win| && win[idx] == ts
    requires forall j :: 0 <= j < idx ==> win[j] == was[j]
    requires forall j :: idx < j <= len ==> win[j] == was[j - 1]
    requires forall j :: len < j < |was| ==> win[j] == was[j]
    ensures win[..len + 1] == was[..idx] + [ts] + was[idx..len] && win[len + 1..] == was[len + 1..]
  {
  }

  /** Shifts the tail of a window up by one and writes ts into the gap, in place. */
  method InsertAt(win: array<int>, len: nat, idx: nat, ts: int)
    requires idx <= len < win.Length
    modifies win
    ensures win[..len + 1] == old(win[..idx]) + [ts] + old(win[idx..len])
    ensures win[len + 1..] == old(win[len + 1..])
  {
    var i := len;
    while i > idx
      invariant idx <= i <= len
      invariant forall j :: 0 <= j < i ==> win[j] == old(win[j])
      invariant forall j :: i < j <= len ==> win[j] == old(win[j - 1])
      invariant forall j :: len < j < win.Length ==> win[j] == old(win[j])
    {
      win[i] := win[i - 1];
      i := i - 1;
    }
    win[idx] := ts;
    ShiftedUp(old(win[..]), win[..], idx, len, ts);
  }

  method CountEvents(win: seq<int>, horizon: int) returns (count: nat, stale: nat)
    ensures count == |AtOrAfter(win, horizon)| && count + stale == |win|
  {
    count, stale := 0, 0;
    for i := 0 to |win|
      invariant count == |AtOrAfter(win[..i], horizon)| && count + stale == i
    {
      assert win[..i + 1] == win[..i] + [win[i]];
      FilterOne(win[..i], win[i], horizon);
      if win[i] >= horizon {
        count := count + 1;
      } else {
        stale := stale + 1;
      }
    }
    assert win[..|win|] == win;
  }

  function Lookup(m: map<string, seq<int>>, key: string): seq<int> {
    if key in m then m[key] else []
  }

  /** Stores a window; an empty one is removed. */
  function Put(m: map<string, seq<int>>, key: string, win: seq<int>): (r: map<string, seq<int>>)
    ensures Lookup(r, key) == win
    ensures forall k :: k != key ==> Lookup(r, k) == Lookup(m, k)
  {
    if win == [] then m - {key} else m[key := win]
  }

  class SlidingWindows {
    var windows: map<string, seq<int>>

    function Get(key: string): seq<int>
      reads this
    {
      Lookup(windows, key)
    }

    constructor ()
      ensures windows == map[]
    {
      windows := map[];
    }

    method IncrementSlidingWindow(key: string, ts: int, window: int, now: int) returns (count: nat)
      modifies this
      ensures count == |AtOrAfter(old(Get(key)) + [ts], now - window)|
      ensures Get(key) == DropStale(old(Get(key)) + [ts], now - window)
      ensures forall k :: k != key ==> Get(k) == old(Get(k))
    {
      var win := Get(key) + [ts];
      var stale;
      count, stale := CountEvents(win, now - window);
      if stale > 0 {
        win := win[stale..];
      }
      windows := Put(windows, key, win);
    }

    method AddWindowTimestamp(key: string, ts: int)
      modifies this
      ensures Get(key) == Insert(old(Get(key)), ts)
      ensures forall k :: k != key ==> Get(k) == old(Get(k))
    {
      var win := Get(key);
      var idx := 0;
      while idx < |win| && win[idx] < ts
        invariant 0 <= idx <= |win| && forall i :: 0 <= i < idx ==> win[i] < ts
      {
        idx := idx + 1;
      }
      InsertPosition(win, ts, idx);
      if idx < |win| && win[idx] == ts {
        return;
      }
      windows := windows[key := win[..idx] + [ts] + win[idx..]];
    }

    method PruneStaleWindows(now: int)
      modifies this
      ensures forall key :: Get(key) == if IsStale(old(Get(key)), now) then [] else old(Get(key))
      ensures forall key :: key in windows ==> windows[key] != []
    {
      var m, todo := windows, windows.Keys;
      while todo != {}
        invariant todo <= m.Keys
        invariant forall key :: key in todo ==> Lookup(m, key) == Lookup(windows, key)
        invariant forall key :: key !in todo ==>
                    Lookup(m, key) == if IsStale(Lookup(windows, key), now) then [] else Lookup(windows, key)
        invariant forall key :: key in m && key !in todo ==> m[key] != []
        invariant windows == old(windows)
        decreases |todo|
      {
        var key :| key in todo;
        todo := todo - {key};
        if m[key] == [] || IsStale(m[key], now) {
          m := m - {key};
        }
      }
      windows := m;
    }
  }
}
