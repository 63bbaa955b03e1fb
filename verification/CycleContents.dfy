/** What the detected cycles are, told by the names of the events alone. */
module CycleContents {
  import opened CycleWindows
  import opened CycleDetection
  import opened CycleNames
  import opened CycleRefinement
  import opened Decimal
  import opened Distinctness
  import opened StableSorting
  import opened Wrappers
  import OrderedMap

  // ---- The time line -----------------------------------------------------------

  // The events of one moment, in their order.
  function AtTime(events: seq<Event>, time: int): seq<Event> {
    if events == [] then []
    else
      var last := events[|events| - 1];
      AtTime(events[..|events| - 1], time) + (if last.timestamp == time then [last] else [])
  }

  lemma {:induction false} TiesAreOfOneTime(events: seq<Event>, e: Event)
    ensures Ties(ByTime, events, e) == AtTime(events, e.timestamp)
  {
    if events != [] {
      TiesAreOfOneTime(events[..|events| - 1], e);
    }
  }

  // The events are taken in the order of their timestamps, those of one moment as they came.
  lemma TimeLine(events: seq<Event>)
    ensures var es := Sort(ByTime, events);
      && multiset(es) == multiset(events)
      && (forall i, j :: 0 <= i < j < |es| ==> es[i].timestamp <= es[j].timestamp)
      && (forall time :: AtTime(es, time) == AtTime(events, time))
  {
    SortIsSortedPermutation(ByTime, events);
    forall time ensures AtTime(Sort(ByTime, events), time) == AtTime(events, time) {
      var e := Event("", "", "", time);
      SortIsStable(ByTime, events, e);
      TiesAreOfOneTime(events, e);
      TiesAreOfOneTime(Sort(ByTime, events), e);
    }
  }

  // ---- Windows between names ------------------------------------------------------

  // How an event is read: whether it begins, or finishes, a cycle of the kind.
  type Reading = (Event, Slot) -> bool

  // An event that begins a cycle of the kind, one that finishes it, and neither in between.
  ghost predicate Span(es: seq<Event>, begins: Reading, finishes: Reading, slot: Slot, a: nat, b: nat) {
    && a < b < |es| && begins(es[a], slot) && finishes(es[b], slot)
    && forall k :: a < k < b ==> !begins(es[k], slot) && !finishes(es[k], slot)
  }

  // An event that begins a cycle of the kind, with neither after it.
  ghost predicate Unfinished(es: seq<Event>, begins: Reading, finishes: Reading, slot: Slot, a: nat) {
    && a < |es| && begins(es[a], slot)
    && forall k :: a < k < |es| ==> !begins(es[k], slot) && !finishes(es[k], slot)
  }

  ghost predicate EndsSpan(es: seq<Event>, begins: Reading, finishes: Reading, b: nat) {
    exists slot, a: nat :: Span(es, begins, finishes, slot, a, b)
  }

  // How many of the first n events finish a cycle that was begun.
  ghost function FinishedBy(es: seq<Event>, begins: Reading, finishes: Reading, n: nat): nat
    requires n <= |es|
  {
    if n == 0 then 0
    else FinishedBy(es, begins, finishes, n - 1) + (if EndsSpan(es, begins, finishes, n - 1) then 1 else 0)
  }

  // The marks are what the reading says.
  ghost predicate Reads(es: seq<Event>, ms: seq<Mark>, begins: Reading, finishes: Reading) {
    && |ms| == |es|
    && forall k, slot :: 0 <= k < |es| ==>
      (ms[k] == Starts(slot) <==> begins(es[k], slot)) && (ms[k] == Ends(slot) <==> finishes(es[k], slot))
  }

  lemma SnakeReads(es: seq<Event>)
    ensures Reads(es, Map(SnakeMark, es), SnakeBegins, SnakeFinishes)
  {
    forall e, slot
      ensures SnakeMark(e) == Starts(slot) <==> SnakeBegins(e, slot)
      ensures SnakeMark(e) == Ends(slot) <==> SnakeFinishes(e, slot)
    {
      SnakeMarksAreNames(e, slot);
    }
    MapReads(es, SnakeMark, SnakeBegins, SnakeFinishes);
  }

  lemma AnyReads(es: seq<Event>)
    ensures Reads(es, Map(AnyMark, es), Begins, Finishes)
  {
    forall e, slot
      ensures AnyMark(e) == Starts(slot) <==> Begins(e, slot)
      ensures AnyMark(e) == Ends(slot) <==> Finishes(e, slot)
    {
      AnyMarksAreNames(e, slot);
    }
    MapReads(es, AnyMark, Begins, Finishes);
  }

  lemma MapReads(es: seq<Event>, mark: Event -> Mark, begins: Reading, finishes: Reading)
    requires forall e, slot :: (mark(e) == Starts(slot) <==> begins(e, slot)) && (mark(e) == Ends(slot) <==> finishes(e, slot))
    ensures Reads(es, Map(mark, es), begins, finishes)
  {
  }

  lemma SpanIffMatched(es: seq<Event>, ms: seq<Mark>, begins: Reading, finishes: Reading, slot: Slot, a: nat, b: nat)
    requires Reads(es, ms, begins, finishes)
    ensures Span(es, begins, finishes, slot, a, b) <==> Matched(ms, Window(slot, a, b))
  {
  }

  lemma UnfinishedIffOpen(es: seq<Event>, ms: seq<Mark>, begins: Reading, finishes: Reading, slot: Slot, a: nat)
    requires Reads(es, ms, begins, finishes)
    ensures Unfinished(es, begins, finishes, slot, a) <==> OpenStart(ms, |ms|, slot) == Some(a)
  {
    OpenStartIsLastMark(ms, |ms|, slot, a);
  }

  // ---- Counting them -------------------------------------------------------------------

  lemma OneMoreWindow(ms: seq<Mark>, n: nat)
    requires 0 < n <= |ms|
    ensures |Closed(ms, n)| == |Closed(ms, n - 1)| + (if exists w :: Matched(ms, w) && w.last == n - 1 then 1 else 0)
  {
    var before, closed := Closed(ms, n - 1), Closed(ms, n);
    if closed == before {
      forall w | Matched(ms, w) ensures w.last != n - 1 {
        ClosedIffMatched(ms, n, w);
      }
    } else {
      var w := closed[|before|];
      assert w in closed;
      ClosedIffMatched(ms, n, w);
    }
  }

  lemma EndsSpanIff(es: seq<Event>, ms: seq<Mark>, begins: Reading, finishes: Reading, b: nat)
    requires Reads(es, ms, begins, finishes)
    ensures EndsSpan(es, begins, finishes, b) <==> exists w :: Matched(ms, w) && w.last == b
  {
    forall slot, a: nat | Span(es, begins, finishes, slot, a, b) ensures exists w :: Matched(ms, w) && w.last == b {
      SpanIffMatched(es, ms, begins, finishes, slot, a, b);
      assert Matched(ms, Window(slot, a, b));
    }
    forall w | Matched(ms, w) && w.last == b ensures EndsSpan(es, begins, finishes, b) {
      SpanIffMatched(es, ms, begins, finishes, w.slot, w.first, b);
    }
  }

  lemma {:induction false} FinishedIsClosed(es: seq<Event>, ms: seq<Mark>, begins: Reading, finishes: Reading, n: nat)
    requires Reads(es, ms, begins, finishes) && n <= |es|
    ensures FinishedBy(es, begins, finishes, n) == |Closed(ms, n)|
  {
    if n > 0 {
      FinishedIsClosed(es, ms, begins, finishes, n - 1);
      EndsSpanIff(es, ms, begins, finishes, n - 1);
      OneMoreWindow(ms, n);
    }
  }

  // ---- The cycles, window by window -------------------------------------------------------

  lemma MatchedIsDetected(es: seq<Event>, ms: seq<Mark>, w: Window) returns (i: nat)
    requires |ms| == |es| && Matched(ms, w)
    ensures i < |ClosedCycles(es, ms, |es|)| <= |DetectedCycles(es, ms)| && DetectedCycles(es, ms)[i] == ClosedCycle(es, ms, w)
  {
    ClosedIffMatched(ms, |ms|, w);
    i :| 0 <= i < |Closed(ms, |es|)| && Closed(ms, |es|)[i] == w;
    assert ClosedCycles(es, ms, |es|)[i] == ClosedCycle(es, ms, w);
  }

  function StillOpen(es: seq<Event>, ms: seq<Mark>, slot: Slot, a: nat): Cycle
    requires |ms| == |es| && a < |es|
  {
    StartedCycle(es, ms, slot, a).(endTime := Some(es[|es| - 1].timestamp))
  }

  lemma OpenIsDetected(es: seq<Event>, ms: seq<Mark>, slot: Slot, a: nat) returns (i: nat)
    requires |ms| == |es| && OpenStart(ms, |ms|, slot) == Some(a)
    ensures |ClosedCycles(es, ms, |es|)| <= i < |DetectedCycles(es, ms)| && DetectedCycles(es, ms)[i] == StillOpen(es, ms, slot, a)
  {
    var open, c := OpenCycles(es, ms, |SLOTS|), StillOpen(es, ms, slot, a);
    InOpenCycles(es, ms, slot, c);
    var j :| 0 <= j < |open| && open[j] == c;
    i := |ClosedCycles(es, ms, |es|)| + j;
  }

  lemma InOpenCycles(es: seq<Event>, ms: seq<Mark>, slot: Slot, c: Cycle)
    requires |ms| == |es| && c in OpenCycle(es, ms, slot)
    ensures c in OpenCycles(es, ms, |SLOTS|)
  {
    var r := OpenCycle(es, ms, Review) + OpenCycle(es, ms, Repair) + OpenCycle(es, ms, Conversation);
    assert OpenCycles(es, ms, 1) == OpenCycle(es, ms, Review);
    assert OpenCycles(es, ms, 2) == OpenCycle(es, ms, Review) + OpenCycle(es, ms, Repair);
    assert OpenCycles(es, ms, 3) == r;
    assert c in r;
  }

  lemma {:induction false} OpenCycleSlot(es: seq<Event>, ms: seq<Mark>, k: nat, c: Cycle) returns (slot: Slot)
    requires |ms| == |es| && k <= |SLOTS| && c in OpenCycles(es, ms, k)
    ensures OpenStart(ms, |ms|, slot).Some? && c == StillOpen(es, ms, slot, OpenStart(ms, |ms|, slot).value)
  {
    if c in OpenCycles(es, ms, k - 1) {
      slot := OpenCycleSlot(es, ms, k - 1, c);
    } else {
      slot := SLOTS[k - 1];
    }
  }

  lemma ClosedOrOpen(es: seq<Event>, ms: seq<Mark>, i: nat) returns (w: Window)
    requires |ms| == |es| && i < |DetectedCycles(es, ms)|
    ensures w.first < |es|
    ensures if i < |ClosedCycles(es, ms, |es|)| then Matched(ms, w) && DetectedCycles(es, ms)[i] == ClosedCycle(es, ms, w)
            else OpenStart(ms, |ms|, w.slot) == Some(w.first) && DetectedCycles(es, ms)[i] == StillOpen(es, ms, w.slot, w.first)
  {
    var closed := ClosedCycles(es, ms, |es|);
    if i < |closed| {
      w := Closed(ms, |es|)[i];
      assert w in Closed(ms, |es|) && closed[i] == ClosedCycle(es, ms, w);
      ClosedIffMatched(ms, |ms|, w);
    } else {
      var c := OpenCycles(es, ms, |SLOTS|)[i - |closed|];
      var slot := OpenCycleSlot(es, ms, |SLOTS|, c);
      w := Window(slot, OpenStart(ms, |ms|, slot).value, 0);
    }
  }

  // Something is found as soon as an event begins a cycle.
  lemma {:induction false} BeginningIsNotLost(ms: seq<Mark>, a: nat, n: nat, slot: Slot)
    requires a < n <= |ms| && ms[a] == Starts(slot)
    ensures OpenStart(ms, n, slot).Some? || Closed(ms, n) != []
    decreases n
  {
    if a < n - 1 {
      BeginningIsNotLost(ms, a, n - 1, slot);
      ClosedGrows(ms, n - 1, n);
    }
  }

  lemma BeginningIsDetected(es: seq<Event>, ms: seq<Mark>, a: nat, slot: Slot)
    requires |ms| == |es| && a < |ms| && ms[a] == Starts(slot)
    ensures DetectedCycles(es, ms) != []
  {
    BeginningIsNotLost(ms, a, |ms|, slot);
    if OpenStart(ms, |ms|, slot).Some? {
      var i := OpenIsDetected(es, ms, slot, OpenStart(ms, |ms|, slot).value);
    }
  }

  // ---- The cycles, name by name -----------------------------------------------------------

  // The cycle of that kind that event a begins, numbered by the cycles finished before it.
  ghost predicate CycleFrom(c: Cycle, es: seq<Event>, begins: Reading, finishes: Reading, slot: Slot, a: nat,
                            exitPoint: string, endTime: int) {
    && a < |es|
    && c.id == (match slot
                case Review => "review_cycle_"
                case Repair => "repair_cycle_"
                case Conversation => "conv_loop_") + Digits(FinishedBy(es, begins, finishes, a) + 1)
    && c.kind == (match slot case Review => "review" case Repair => "repair" case Conversation => "conversation")
    && c.entryPoint == es[a].id && c.startTime == es[a].timestamp && !c.isCollapsed
    && c.exitPoint == exitPoint && c.endTime == Some(endTime)
  }

  ghost predicate FinishedCycle(c: Cycle, es: seq<Event>, begins: Reading, finishes: Reading, slot: Slot, a: nat, b: nat) {
    Span(es, begins, finishes, slot, a, b) && CycleFrom(c, es, begins, finishes, slot, a, es[b].id, es[b].timestamp)
  }

  ghost predicate UnfinishedCycle(c: Cycle, es: seq<Event>, begins: Reading, finishes: Reading, slot: Slot, a: nat) {
    Unfinished(es, begins, finishes, slot, a) && CycleFrom(c, es, begins, finishes, slot, a, "", es[|es| - 1].timestamp)
  }

  lemma ClosedIsFinished(es: seq<Event>, ms: seq<Mark>, begins: Reading, finishes: Reading, w: Window)
    requires Reads(es, ms, begins, finishes) && Matched(ms, w)
    ensures FinishedCycle(ClosedCycle(es, ms, w), es, begins, finishes, w.slot, w.first, w.last)
  {
    SpanIffMatched(es, ms, begins, finishes, w.slot, w.first, w.last);
    FinishedIsClosed(es, ms, begins, finishes, w.first);
  }

  lemma OpenIsUnfinished(es: seq<Event>, ms: seq<Mark>, begins: Reading, finishes: Reading, slot: Slot, a: nat)
    requires Reads(es, ms, begins, finishes) && OpenStart(ms, |ms|, slot) == Some(a)
    ensures UnfinishedCycle(StillOpen(es, ms, slot, a), es, begins, finishes, slot, a)
  {
    UnfinishedIffOpen(es, ms, begins, finishes, slot, a);
    FinishedIsClosed(es, ms, begins, finishes, a);
  }

  // Each span is a cycle that ends where the span ends.
  lemma SpanIsDetected(es: seq<Event>, ms: seq<Mark>, begins: Reading, finishes: Reading, slot: Slot, a: nat, b: nat) returns (i: nat)
    requires Reads(es, ms, begins, finishes) && Span(es, begins, finishes, slot, a, b)
    ensures i < |ClosedCycles(es, ms, |es|)| <= |DetectedCycles(es, ms)|
    ensures FinishedCycle(DetectedCycles(es, ms)[i], es, begins, finishes, slot, a, b)
  {
    SpanIffMatched(es, ms, begins, finishes, slot, a, b);
    i := MatchedIsDetected(es, ms, Window(slot, a, b));
    ClosedIsFinished(es, ms, begins, finishes, Window(slot, a, b));
  }

  // Each beginning that nothing follows is a cycle that ends, for now, with the last event.
  lemma UnfinishedIsDetected(es: seq<Event>, ms: seq<Mark>, begins: Reading, finishes: Reading, slot: Slot, a: nat) returns (i: nat)
    requires Reads(es, ms, begins, finishes) && Unfinished(es, begins, finishes, slot, a)
    ensures |ClosedCycles(es, ms, |es|)| <= i < |DetectedCycles(es, ms)|
    ensures UnfinishedCycle(DetectedCycles(es, ms)[i], es, begins, finishes, slot, a)
  {
    UnfinishedIffOpen(es, ms, begins, finishes, slot, a);
    i := OpenIsDetected(es, ms, slot, a);
    OpenIsUnfinished(es, ms, begins, finishes, slot, a);
  }

  // And no cycle is anything else.
  lemma DetectedBegins(es: seq<Event>, ms: seq<Mark>, begins: Reading, finishes: Reading, i: nat) returns (slot: Slot, a: nat, b: nat)
    requires Reads(es, ms, begins, finishes) && i < |DetectedCycles(es, ms)|
    ensures if i < |ClosedCycles(es, ms, |es|)|
            then FinishedCycle(DetectedCycles(es, ms)[i], es, begins, finishes, slot, a, b)
            else UnfinishedCycle(DetectedCycles(es, ms)[i], es, begins, finishes, slot, a)
    ensures DetectedCycles(es, ms)[i].runs == [] && DetectedCycles(es, ms)[i].iterations == 0
  {
    var w := ClosedOrOpen(es, ms, i);
    slot, a, b := w.slot, w.first, w.last;
    if i < |ClosedCycles(es, ms, |es|)| {
      ClosedIsFinished(es, ms, begins, finishes, w);
    } else {
      OpenIsUnfinished(es, ms, begins, finishes, slot, a);
    }
  }

  lemma DetectedHasBeginning(es: seq<Event>, ms: seq<Mark>, begins: Reading, finishes: Reading) returns (slot: Slot, e: Event)
    requires Reads(es, ms, begins, finishes) && DetectedCycles(es, ms) != []
    ensures e in es && begins(e, slot)
  {
    var w := ClosedOrOpen(es, ms, 0);
    slot, e := w.slot, es[w.first];
    OpenStartIsLastMark(ms, |ms|, slot, w.first);
    assert ms[w.first] == Starts(slot);
  }

  lemma BeginningIsInIt(es: seq<Event>, ms: seq<Mark>, begins: Reading, finishes: Reading, slot: Slot, e: Event)
    requires Reads(es, ms, begins, finishes) && e in es && begins(e, slot)
    ensures DetectedCycles(es, ms) != []
  {
    var a: nat :| a < |es| && es[a] == e;
    BeginningIsDetected(es, ms, a, slot);
  }

  // Finished cycles come first, in the order in which they finish; then those left open, a review
  // before a repair before a conversation.
  lemma FinishedInOrder(es: seq<Event>, ms: seq<Mark>, begins: Reading, finishes: Reading, i: nat, j: nat) returns (v: Window, w: Window)
    requires Reads(es, ms, begins, finishes) && i < j < |ClosedCycles(es, ms, |es|)|
    ensures FinishedCycle(DetectedCycles(es, ms)[i], es, begins, finishes, v.slot, v.first, v.last)
    ensures FinishedCycle(DetectedCycles(es, ms)[j], es, begins, finishes, w.slot, w.first, w.last)
    ensures v.last < w.last
  {
    v, w := Closed(ms, |es|)[i], Closed(ms, |es|)[j];
    ClosedInOrderOfEnds(ms, |es|, i, j);
    ClosedAt(es, ms, begins, finishes, i);
    ClosedAt(es, ms, begins, finishes, j);
  }

  lemma ClosedAt(es: seq<Event>, ms: seq<Mark>, begins: Reading, finishes: Reading, i: nat)
    requires Reads(es, ms, begins, finishes) && i < |Closed(ms, |es|)|
    ensures var w := Closed(ms, |es|)[i];
      i < |DetectedCycles(es, ms)| && FinishedCycle(DetectedCycles(es, ms)[i], es, begins, finishes, w.slot, w.first, w.last)
  {
    var w := Closed(ms, |es|)[i];
    assert w in Closed(ms, |es|);
    ClosedIffMatched(ms, |es|, w);
    ClosedIsFinished(es, ms, begins, finishes, w);
    assert ClosedCycles(es, ms, |es|)[i] == ClosedCycle(es, ms, w);
  }

  lemma UnfinishedInOrder(es: seq<Event>, ms: seq<Mark>)
    requires |ms| == |es|
    ensures DetectedCycles(es, ms) == ClosedCycles(es, ms, |es|)
              + (OpenCycle(es, ms, Review) + OpenCycle(es, ms, Repair) + OpenCycle(es, ms, Conversation))
  {
    assert OpenCycles(es, ms, 1) == OpenCycle(es, ms, Review);
    assert OpenCycles(es, ms, 2) == OpenCycle(es, ms, Review) + OpenCycle(es, ms, Repair);
    assert OpenCycles(es, ms, 3) == OpenCycle(es, ms, Review) + OpenCycle(es, ms, Repair) + OpenCycle(es, ms, Conversation);
  }

  // No event that begins a cycle, no cycle.
  lemma NothingBegun(es: seq<Event>, ms: seq<Mark>, begins: Reading, finishes: Reading)
    requires Reads(es, ms, begins, finishes)
    ensures DetectedCycles(es, ms) == [] <==> forall e, slot :: e in es ==> !begins(e, slot)
  {
    if DetectedCycles(es, ms) != [] {
      var slot, e := DetectedHasBeginning(es, ms, begins, finishes);
    }
    forall e, slot | e in es && begins(e, slot) ensures DetectedCycles(es, ms) != [] {
      BeginningIsInIt(es, ms, begins, finishes, slot, e);
    }
  }

  // ---- The two passes ------------------------------------------------------------------

  lemma FirstPass(events: seq<Event>) returns (es: seq<Event>, ms: seq<Mark>)
    ensures es == Sort(ByTime, events) && Reads(es, ms, SnakeBegins, SnakeFinishes)
    ensures Detected(events) == DetectedCycles(es, ms)
  {
    es, ms := Sort(ByTime, events), Map(SnakeMark, Sort(ByTime, events));
    SnakeReads(es);
  }

  // A span of snake_case names is a cycle of the first pass.
  lemma DetectsSpan(events: seq<Event>, slot: Slot, a: nat, b: nat) returns (c: Cycle)
    requires Span(Sort(ByTime, events), SnakeBegins, SnakeFinishes, slot, a, b)
    ensures c in Detected(events) && FinishedCycle(c, Sort(ByTime, events), SnakeBegins, SnakeFinishes, slot, a, b)
  {
    var es, ms := FirstPass(events);
    var i := SpanIsDetected(es, ms, SnakeBegins, SnakeFinishes, slot, a, b);
    c := DetectedCycles(es, ms)[i];
  }

  // So is a beginning with nothing after it.
  lemma DetectsUnfinished(events: seq<Event>, slot: Slot, a: nat) returns (c: Cycle)
    requires Unfinished(Sort(ByTime, events), SnakeBegins, SnakeFinishes, slot, a)
    ensures c in Detected(events) && UnfinishedCycle(c, Sort(ByTime, events), SnakeBegins, SnakeFinishes, slot, a)
  {
    var es, ms := FirstPass(events);
    var i := UnfinishedIsDetected(es, ms, SnakeBegins, SnakeFinishes, slot, a);
    c := DetectedCycles(es, ms)[i];
  }

  // And there is nothing else.
  lemma DetectsOnly(events: seq<Event>, i: nat) returns (c: Cycle, slot: Slot, a: nat, b: nat)
    requires i < |Detected(events)|
    ensures c == Detected(events)[i] && c.runs == [] && c.iterations == 0
    ensures FinishedCycle(c, Sort(ByTime, events), SnakeBegins, SnakeFinishes, slot, a, b)
         || UnfinishedCycle(c, Sort(ByTime, events), SnakeBegins, SnakeFinishes, slot, a)
  {
    var es, ms := FirstPass(events);
    c := DetectedCycles(es, ms)[i];
    slot, a, b := DetectedBegins(es, ms, SnakeBegins, SnakeFinishes, i);
  }

  // ---- The single pass -------------------------------------------------------------------

  // The entry of a cycle that lists the executions up to hi.
  ghost predicate Lists(e: (string, Cycle), ex: Executions, hi: int) {
    e.0 == e.1.id && e.1.runs == RunsWithin(ex, |ex|, e.1.startTime, hi) && e.1.iterations == |e.1.runs|
  }

  ghost predicate SameBut(c: Cycle, d: Cycle) {
    c == d.(runs := c.runs, iterations := c.iterations)
  }

  lemma EntryOfCycle(es: seq<Event>, ms: seq<Mark>, ex: Executions, now: int, i: nat)
    requires |ms| == |es| && i < |DetectedCycles(es, ms)|
    ensures |BoundaryMap(es, ms, ex, now)| == |DetectedCycles(es, ms)|
    ensures SameBut(BoundaryMap(es, ms, ex, now)[i].1, DetectedCycles(es, ms)[i])
    ensures Lists(BoundaryMap(es, ms, ex, now)[i], ex,
                  if i < |ClosedCycles(es, ms, |es|)| then EndOrNow(DetectedCycles(es, ms)[i], 0) else now)
  {
    BoundaryMapFilled(es, ms, ex, now);
  }

  lemma SpanIsListed(es: seq<Event>, ms: seq<Mark>, begins: Reading, finishes: Reading, ex: Executions, now: int,
                     slot: Slot, a: nat, b: nat) returns (e: (string, Cycle))
    requires Reads(es, ms, begins, finishes) && Span(es, begins, finishes, slot, a, b)
    ensures e in BoundaryMap(es, ms, ex, now)
    ensures FinishedCycle(e.1, es, begins, finishes, slot, a, b) && Lists(e, ex, es[b].timestamp)
  {
    var i := SpanIsDetected(es, ms, begins, finishes, slot, a, b);
    EntryOfCycle(es, ms, ex, now, i);
    e := BoundaryMap(es, ms, ex, now)[i];
  }

  lemma UnfinishedIsListed(es: seq<Event>, ms: seq<Mark>, begins: Reading, finishes: Reading, ex: Executions, now: int,
                           slot: Slot, a: nat) returns (e: (string, Cycle))
    requires Reads(es, ms, begins, finishes) && Unfinished(es, begins, finishes, slot, a)
    ensures e in BoundaryMap(es, ms, ex, now)
    ensures UnfinishedCycle(e.1, es, begins, finishes, slot, a) && Lists(e, ex, now)
  {
    var i := UnfinishedIsDetected(es, ms, begins, finishes, slot, a);
    EntryOfCycle(es, ms, ex, now, i);
    e := BoundaryMap(es, ms, ex, now)[i];
  }

  lemma OnlySuchEntries(es: seq<Event>, ms: seq<Mark>, begins: Reading, finishes: Reading, ex: Executions, now: int, i: nat)
      returns (slot: Slot, a: nat, b: nat)
    requires Reads(es, ms, begins, finishes) && i < |BoundaryMap(es, ms, ex, now)|
    ensures var e := BoundaryMap(es, ms, ex, now)[i];
      || (FinishedCycle(e.1, es, begins, finishes, slot, a, b) && Lists(e, ex, es[b].timestamp))
      || (UnfinishedCycle(e.1, es, begins, finishes, slot, a) && Lists(e, ex, now))
  {
    BoundaryMapFilled(es, ms, ex, now);
    slot, a, b := DetectedBegins(es, ms, begins, finishes, i);
    EntryOfCycle(es, ms, ex, now, i);
  }

  lemma OnePass(events: seq<Event>) returns (es: seq<Event>, ms: seq<Mark>)
    ensures es == Sort(ByTime, events) && ms == Map(AnyMark, es) && Reads(es, ms, Begins, Finishes)
  {
    es, ms := Sort(ByTime, events), Map(AnyMark, Sort(ByTime, events));
    AnyReads(es);
  }

  lemma SinglePassFound(events: seq<Event>, ex: Executions, now: int) returns (es: seq<Event>, ms: seq<Mark>)
    ensures es == Sort(ByTime, events) && Reads(es, ms, Begins, Finishes)
    ensures BoundaryMap(es, ms, ex, now) != [] ==> Identified(events, ex, now) == BoundaryMap(es, ms, ex, now)
    ensures BoundaryMap(es, ms, ex, now) == [] ==> Identified(events, ex, now) == SimpleMap(ex, |ex|)
    ensures |BoundaryMap(es, ms, ex, now)| == |DetectedCycles(es, ms)|
  {
    es, ms := OnePass(events);
    BoundaryMapFilled(es, ms, ex, now);
  }

  // A span of names, in either spelling, is in the map with the executions that start within it.
  lemma IdentifiesSpan(events: seq<Event>, ex: Executions, now: int, slot: Slot, a: nat, b: nat) returns (e: (string, Cycle))
    requires Span(Sort(ByTime, events), Begins, Finishes, slot, a, b)
    ensures e in Identified(events, ex, now)
    ensures var es := Sort(ByTime, events); FinishedCycle(e.1, es, Begins, Finishes, slot, a, b) && Lists(e, ex, es[b].timestamp)
  {
    var es, ms := SinglePassFound(events, ex, now);
    e := SpanIsListed(es, ms, Begins, Finishes, ex, now, slot, a, b);
  }

  // A beginning with nothing after it is in the map with the executions that start until now.
  lemma IdentifiesUnfinished(events: seq<Event>, ex: Executions, now: int, slot: Slot, a: nat) returns (e: (string, Cycle))
    requires Unfinished(Sort(ByTime, events), Begins, Finishes, slot, a)
    ensures e in Identified(events, ex, now)
    ensures UnfinishedCycle(e.1, Sort(ByTime, events), Begins, Finishes, slot, a) && Lists(e, ex, now)
  {
    var es, ms := SinglePassFound(events, ex, now);
    e := UnfinishedIsListed(es, ms, Begins, Finishes, ex, now, slot, a);
  }

  // If an event begins a cycle, these are all entries.
  lemma IdentifiesOnly(events: seq<Event>, ex: Executions, now: int, i: nat)
      returns (e: (string, Cycle), slot: Slot, a: nat, b: nat)
    requires i < |Identified(events, ex, now)| && exists e, s :: e in events && Begins(e, s)
    ensures e == Identified(events, ex, now)[i]
    ensures var es := Sort(ByTime, events);
      || (FinishedCycle(e.1, es, Begins, Finishes, slot, a, b) && Lists(e, ex, es[b].timestamp))
      || (UnfinishedCycle(e.1, es, Begins, Finishes, slot, a) && Lists(e, ex, now))
  {
    var es, ms := SinglePassFound(events, ex, now);
    SortedMembers(events);
    NothingBegun(es, ms, Begins, Finishes);
    e := BoundaryMap(es, ms, ex, now)[i];
    slot, a, b := OnlySuchEntries(es, ms, Begins, Finishes, ex, now, i);
  }

  // Without one, the fallback is used.
  lemma OtherwiseSimple(events: seq<Event>, ex: Executions, now: int)
    requires forall e, slot :: e in events ==> !Begins(e, slot)
    ensures Identified(events, ex, now) == SimpleMap(ex, |ex|)
  {
    var es, ms := SinglePassFound(events, ex, now);
    SortedMembers(events);
    NothingBegun(es, ms, Begins, Finishes);
  }

  lemma SortedMembers(events: seq<Event>)
    ensures forall e :: e in events <==> e in Sort(ByTime, events)
  {
    SortIsSortedPermutation(ByTime, events);
    forall e ensures e in events <==> e in Sort(ByTime, events) {
      assert e in multiset(events) <==> e in multiset(Sort(ByTime, events));
    }
  }

  // ---- The executions listed ------------------------------------------------------------

  // Execution k of the a-th agent starts within the bounds.
  predicate Within(ex: Executions, lo: int, hi: int, a: nat, k: nat) {
    a < |ex| && k < |ex[a].1| && lo <= ex[a].1[k].startTime <= hi
  }

  ghost predicate Shows(run: Run, ex: Executions, a: nat, k: nat) {
    a < |ex| && k < |ex[a].1| && run == Run(ex[a].0, ex[a].1[k].taskId, k, ex[a].1[k].startTime)
  }

  lemma {:induction false} RunsOfAreTheExecutions(ex: Executions, a: nat, n: nat, lo: int, hi: int) returns (at: seq<nat>)
    requires a < |ex| && n <= |ex[a].1|
    ensures var runs := RunsOf(ex[a].0, ex[a].1, n, lo, hi);
      && |at| == |runs| && (forall i :: 0 <= i < |at| ==> at[i] < n && Within(ex, lo, hi, a, at[i]) && Shows(runs[i], ex, a, at[i]))
    ensures forall i, j :: 0 <= i < j < |at| ==> at[i] < at[j]
    ensures forall k: nat :: k < n && Within(ex, lo, hi, a, k) ==> k in at
  {
    at := [];
    if n > 0 {
      at := RunsOfAreTheExecutions(ex, a, n - 1, lo, hi);
      if lo <= ex[a].1[n - 1].startTime <= hi {
        at := at + [n - 1];
      }
    }
  }

  // The runs are the executions within the bounds, agent by agent in order, each once and no others.
  ghost predicate ListsAt(runs: seq<Run>, at: seq<(nat, nat)>, ex: Executions, n: nat, lo: int, hi: int) {
    && |at| == |runs|
    && (forall i :: 0 <= i < |at| ==>
          at[i].0 < n && Within(ex, lo, hi, at[i].0, at[i].1) && Shows(runs[i], ex, at[i].0, at[i].1))
    && (forall i, j :: 0 <= i < j < |at| ==> at[i].0 < at[j].0 || (at[i].0 == at[j].0 && at[i].1 < at[j].1))
    && (forall a: nat, k: nat :: a < n && Within(ex, lo, hi, a, k) ==> (a, k) in at)
  }

  function OfAgent(n: nat, ks: seq<nat>): (r: seq<(nat, nat)>)
    ensures |r| == |ks| && forall i :: 0 <= i < |r| ==> r[i] == (n, ks[i])
  {
    seq(|ks|, i requires 0 <= i < |ks| => (n, ks[i]))
  }

  lemma PlaceOf(front: seq<(nat, nat)>, n: nat, ks: seq<nat>, a: nat, k: nat)
    requires if a == n then k in ks else (a, k) in front
    ensures (a, k) in front + OfAgent(n, ks)
  {
    if a == n {
      var i :| 0 <= i < |ks| && ks[i] == k;
      assert OfAgent(n, ks)[i] == (n, k);
    }
  }

  lemma OneMoreLists(runs: seq<Run>, front: seq<(nat, nat)>, more: seq<Run>, ks: seq<nat>,
                     ex: Executions, n: nat, lo: int, hi: int)
    requires ListsAt(runs, front, ex, n, lo, hi) && |ks| == |more|
    requires forall i :: 0 <= i < |ks| ==> Within(ex, lo, hi, n, ks[i]) && Shows(more[i], ex, n, ks[i])
    requires forall i, j :: 0 <= i < j < |ks| ==> ks[i] < ks[j]
    requires forall k: nat :: Within(ex, lo, hi, n, k) ==> k in ks
    ensures ListsAt(runs + more, front + OfAgent(n, ks), ex, n + 1, lo, hi)
  {
    var at := front + OfAgent(n, ks);
    forall i | 0 <= i < |at|
      ensures at[i].0 < n + 1 && Within(ex, lo, hi, at[i].0, at[i].1) && Shows((runs + more)[i], ex, at[i].0, at[i].1)
    {
      if i >= |front| {
        assert at[i] == (n, ks[i - |front|]);
      }
    }
    PlacesAscend(front, n, ks);
    forall a: nat, k: nat | a < n + 1 && Within(ex, lo, hi, a, k) ensures (a, k) in at {
      PlaceOf(front, n, ks, a, k);
    }
  }

  lemma PlacesAscend(front: seq<(nat, nat)>, n: nat, ks: seq<nat>)
    requires forall i :: 0 <= i < |front| ==> front[i].0 < n
    requires forall i, j :: 0 <= i < j < |front| ==> front[i].0 < front[j].0 || (front[i].0 == front[j].0 && front[i].1 < front[j].1)
    requires forall i, j :: 0 <= i < j < |ks| ==> ks[i] < ks[j]
    ensures var at := front + OfAgent(n, ks);
      forall i, j :: 0 <= i < j < |at| ==> at[i].0 < at[j].0 || (at[i].0 == at[j].0 && at[i].1 < at[j].1)
  {
  }

  lemma {:induction false} RunsAreTheExecutions(ex: Executions, n: nat, lo: int, hi: int) returns (at: seq<(nat, nat)>)
    requires n <= |ex|
    ensures ListsAt(RunsWithin(ex, n, lo, hi), at, ex, n, lo, hi)
  {
    at := [];
    if n > 0 {
      var front := RunsAreTheExecutions(ex, n - 1, lo, hi);
      var ks := RunsOfAreTheExecutions(ex, n - 1, |ex[n - 1].1|, lo, hi);
      var more := RunsOf(ex[n - 1].0, ex[n - 1].1, |ex[n - 1].1|, lo, hi);
      OneMoreLists(RunsWithin(ex, n - 1, lo, hi), front, more, ks, ex, n - 1, lo, hi);
      at := front + OfAgent(n - 1, ks);
    }
  }

  // ---- The grouping pass, and the fallback -------------------------------------------------

  // The cycle with its executions, numbered through, up to its end or the clock.
  ghost predicate GroupOf(e: (string, Cycle), c: Cycle, ex: Executions, now: int) {
    var runs := RunsWithin(ex, |ex|, c.startTime, match c.endTime case None => now case Some(end) => end);
    && e.0 == c.id && runs != [] && |e.1.runs| == |runs|
    && (forall k :: 0 <= k < |runs| ==> e.1.runs[k] == runs[k].(executionIndex := k))
    && e.1 == c.(runs := e.1.runs, iterations := |runs|, isCollapsed := false)
  }

  lemma EntryIsGroup(c: Cycle, ex: Executions, now: int)
    ensures var entry := GroupedEntry(c, ex, now);
      if RunsWithin(ex, |ex|, c.startTime, match c.endTime case None => now case Some(end) => end) == [] then entry == []
      else |entry| == 1 && GroupOf(entry[0], c, ex, now)
  {
  }

  lemma {:induction false} GroupOfEach(cycles: seq<Cycle>, ex: Executions, now: int, i: nat, e: (string, Cycle))
    requires i < |cycles| && e in GroupedEntry(cycles[i], ex, now)
    ensures e in Grouped(cycles, ex, now)
  {
    var n := |cycles| - 1;
    if i < n {
      GroupOfEach(cycles[..n], ex, now, i, e);
    }
  }

  lemma {:induction false} EachIsGroup(cycles: seq<Cycle>, ex: Executions, now: int, e: (string, Cycle)) returns (c: Cycle)
    requires e in Grouped(cycles, ex, now)
    ensures c in cycles && [e] == GroupedEntry(c, ex, now)
  {
    var n := |cycles| - 1;
    if e in Grouped(cycles[..n], ex, now) {
      c := EachIsGroup(cycles[..n], ex, now, e);
    } else {
      c := cycles[n];
    }
  }

  // Each cycle with executions is in the map, and nothing else is.
  lemma WhatIsGrouped(cycles: seq<Cycle>, ex: Executions, now: int)
    requires DistinctBy(cycles, IdOf)
    ensures forall e :: e in GroupedMap(cycles, ex, now) ==> exists c :: c in cycles && GroupOf(e, c, ex, now)
    ensures forall c ::
      c in cycles && RunsWithin(ex, |ex|, c.startTime, match c.endTime case None => now case Some(end) => end) != [] ==>
      exists e :: e in GroupedMap(cycles, ex, now) && GroupOf(e, c, ex, now)
  {
    NothingOverwritten(cycles, ex, now);
    forall e | e in GroupedMap(cycles, ex, now) ensures exists c :: c in cycles && GroupOf(e, c, ex, now) {
      var c := EachIsGroup(cycles, ex, now, e);
      EntryIsGroup(c, ex, now);
    }
    forall c | c in cycles && RunsWithin(ex, |ex|, c.startTime, match c.endTime case None => now case Some(end) => end) != []
      ensures exists e :: e in GroupedMap(cycles, ex, now) && GroupOf(e, c, ex, now)
    {
      EntryIsGroup(c, ex, now);
      var i: nat :| i < |cycles| && cycles[i] == c;
      GroupOfEach(cycles, ex, now, i, GroupedEntry(c, ex, now)[0]);
    }
  }

  // The cycle that stands for an agent with several executions.
  ghost predicate AgentCycle(e: (string, Cycle), agent: string, execs: seq<Execution>) {
    && |execs| > 1 && e.0 == e.1.id == agent + "_cycle"
    && e.1.kind == "unknown" && e.1.entryPoint == "" && e.1.exitPoint == "" && !e.1.isCollapsed
    && e.1.startTime == execs[0].startTime && e.1.endTime == execs[|execs| - 1].endTime
    && e.1.iterations == |e.1.runs| == |execs|
    && forall k :: 0 <= k < |execs| ==> e.1.runs[k] == Run(agent, execs[k].taskId, k, execs[k].startTime)
  }

  lemma EntryOfAgent(agent: string, execs: seq<Execution>)
    requires |execs| > 1
    ensures |SimpleEntry(agent, execs)| == 1 && AgentCycle(SimpleEntry(agent, execs)[0], agent, execs)
  {
  }

  lemma SuffixesDiffer(a: string, b: string)
    ensures a + "_cycle" == b + "_cycle" <==> a == b
  {
    var s, t := a + "_cycle", b + "_cycle";
    assert s[..|s| - 6] == a && t[..|t| - 6] == b;
  }

  function FallbackOf(ex: Executions, a: nat): (string, Cycle)
    requires a < |ex| && |ex[a].1| > 1
  {
    SimpleEntry(ex[a].0, ex[a].1)[0]
  }

  predicate IsFallback(entry: (string, Cycle), ex: Executions, a: nat)
    requires a < |ex|
  {
    |ex[a].1| > 1 && entry == FallbackOf(ex, a)
  }

  // The cycles of the agents that started more than once.
  function FallbackCycles(ex: Executions, n: nat): CycleMap
    requires n <= |ex|
  {
    if n == 0 then [] else FallbackCycles(ex, n - 1) + (if |ex[n - 1].1| > 1 then [FallbackOf(ex, n - 1)] else [])
  }

  lemma {:induction false} FallbackAgent(ex: Executions, n: nat, k: nat) returns (a: nat)
    requires n <= |ex| && k < |FallbackCycles(ex, n)|
    ensures a < n && IsFallback(FallbackCycles(ex, n)[k], ex, a)
  {
    if k < |FallbackCycles(ex, n - 1)| {
      a := FallbackAgent(ex, n - 1, k);
    } else {
      a := n - 1;
    }
  }

  lemma {:induction false} FallbackListed(ex: Executions, n: nat, a: nat)
    requires a < n <= |ex| && |ex[a].1| > 1
    ensures FallbackOf(ex, a) in FallbackCycles(ex, n)
  {
    if a < n - 1 {
      FallbackListed(ex, n - 1, a);
    }
  }

  lemma NewFallback(ex: Executions, n: nat)
    requires OrderedMap.KeysDistinct(ex) && n < |ex| && |ex[n].1| > 1
    ensures !OrderedMap.Has(FallbackCycles(ex, n), FallbackOf(ex, n).0)
  {
    var front := FallbackCycles(ex, n);
    forall k | 0 <= k < |front| ensures front[k].0 != FallbackOf(ex, n).0 {
      var a := FallbackAgent(ex, n, k);
      assert ex[a].0 != ex[n].0;
      SuffixesDiffer(ex[a].0, ex[n].0);
    }
  }

  lemma {:induction false} SimpleIsFallback(ex: Executions, n: nat)
    requires OrderedMap.KeysDistinct(ex) && n <= |ex|
    ensures SimpleMap(ex, n) == FallbackCycles(ex, n)
  {
    if n > 0 {
      SimpleIsFallback(ex, n - 1);
      if |ex[n - 1].1| > 1 {
        NewFallback(ex, n - 1);
      }
    }
  }

  // The fallback gives the agents with several executions, in order, with all of them.
  lemma WhatIsSimple(ex: Executions, a: nat)
    requires OrderedMap.KeysDistinct(ex) && a < |ex| && |ex[a].1| > 1
    ensures SimpleMap(ex, |ex|) == FallbackCycles(ex, |ex|)
    ensures FallbackOf(ex, a) in SimpleMap(ex, |ex|) && AgentCycle(FallbackOf(ex, a), ex[a].0, ex[a].1)
  {
    SimpleIsFallback(ex, |ex|);
    FallbackListed(ex, |ex|, a);
    EntryOfAgent(ex[a].0, ex[a].1);
  }
}
