/** The single pass against the two passes: what they share, and exactly when they agree. */
module CycleRefinement {
  import opened CycleWindows
  import opened CycleDetection
  import opened CycleNames
  import opened Distinctness
  import opened StableSorting
  import opened Wrappers
  import OrderedMap

  // Forget cycles without executions, and number executions by their place in the cycle.
  function Normal(m: CycleMap): CycleMap {
    if m == [] then []
    else
      var last := m[|m| - 1];
      Normal(m[..|m| - 1])
      + (if last.1.runs == [] then [] else [(last.0, last.1.(runs := Renumbered(last.1.runs)))])
  }

  // No execution starts, at or after lo, on one side of one bound and the other side of the other.
  ghost predicate SameWindow(ex: Executions, lo: int, h1: int, h2: int) {
    forall a, i :: 0 <= a < |ex| && 0 <= i < |ex[a].1| && lo <= ex[a].1[i].startTime ==>
      (ex[a].1[i].startTime <= h1 <==> ex[a].1[i].startTime <= h2)
  }

  lemma {:induction false} WiderWindowOfAgent(agent: string, execs: seq<Execution>, n: nat, lo: int, h1: int, h2: int)
    requires n <= |execs| && h1 <= h2
    ensures |RunsOf(agent, execs, n, lo, h1)| <= |RunsOf(agent, execs, n, lo, h2)|
    ensures |RunsOf(agent, execs, n, lo, h1)| == |RunsOf(agent, execs, n, lo, h2)| <==>
      forall i :: 0 <= i < n && lo <= execs[i].startTime <= h2 ==> execs[i].startTime <= h1
    ensures |RunsOf(agent, execs, n, lo, h1)| == |RunsOf(agent, execs, n, lo, h2)| ==>
      RunsOf(agent, execs, n, lo, h1) == RunsOf(agent, execs, n, lo, h2)
  {
    if n > 0 {
      WiderWindowOfAgent(agent, execs, n - 1, lo, h1, h2);
    }
  }

  lemma {:induction false} WiderWindow(ex: Executions, n: nat, lo: int, h1: int, h2: int)
    requires n <= |ex| && h1 <= h2
    ensures |RunsWithin(ex, n, lo, h1)| <= |RunsWithin(ex, n, lo, h2)|
    ensures |RunsWithin(ex, n, lo, h1)| == |RunsWithin(ex, n, lo, h2)| <==> SameWindow(ex[..n], lo, h1, h2)
    ensures |RunsWithin(ex, n, lo, h1)| == |RunsWithin(ex, n, lo, h2)| ==>
      RunsWithin(ex, n, lo, h1) == RunsWithin(ex, n, lo, h2)
  {
    if n > 0 {
      WiderWindow(ex, n - 1, lo, h1, h2);
      WiderWindowOfAgent(ex[n - 1].0, ex[n - 1].1, |ex[n - 1].1|, lo, h1, h2);
      var front, all, execs := ex[..n - 1], ex[..n], ex[n - 1].1;
      assert SameWindow(all, lo, h1, h2) <==>
        SameWindow(front, lo, h1, h2) &&
        forall i :: 0 <= i < |execs| && lo <= execs[i].startTime <= h2 ==> execs[i].startTime <= h1
      by {
        assert forall a :: 0 <= a < n - 1 ==> all[a] == front[a];
        assert all[n - 1] == ex[n - 1];
      }
    }
  }

  lemma RunsAgreeIff(ex: Executions, lo: int, h1: int, h2: int)
    ensures SameWindow(ex, lo, h1, h2) <==> |RunsWithin(ex, |ex|, lo, h1)| == |RunsWithin(ex, |ex|, lo, h2)|
    ensures SameWindow(ex, lo, h1, h2) ==> RunsWithin(ex, |ex|, lo, h1) == RunsWithin(ex, |ex|, lo, h2)
  {
    assert ex[..|ex|] == ex;
    if h1 <= h2 {
      WiderWindow(ex, |ex|, lo, h1, h2);
    } else {
      WiderWindow(ex, |ex|, lo, h2, h1);
      assert SameWindow(ex, lo, h1, h2) <==> SameWindow(ex, lo, h2, h1);
    }
  }

  // ---- Entries up to given bounds -----------------------------------------------

  // One cycle with the executions up to hi, or nothing if there are none.
  function EntryUpTo(c: Cycle, ex: Executions, hi: int): CycleMap {
    var runs := Renumbered(RunsOfCycle(c, ex, hi));
    if runs == [] then [] else [(c.id, WithRuns(c, runs))]
  }

  function EntriesUpTo(cs: seq<Cycle>, ex: Executions, his: seq<int>): CycleMap
    requires |cs| == |his|
  {
    if cs == [] then []
    else
      var n := |cs| - 1;
      EntriesUpTo(cs[..n], ex, his[..n]) + EntryUpTo(cs[n], ex, his[n])
  }

  lemma EntryAgreesIff(c: Cycle, ex: Executions, h1: int, h2: int)
    ensures EntryUpTo(c, ex, h1) == EntryUpTo(c, ex, h2) <==> SameWindow(ex, c.startTime, h1, h2)
  {
    RunsAgreeIff(ex, c.startTime, h1, h2);
    var r1, r2 := Renumbered(RunsOfCycle(c, ex, h1)), Renumbered(RunsOfCycle(c, ex, h2));
    if EntryUpTo(c, ex, h1) == EntryUpTo(c, ex, h2) && r1 != [] {
      assert WithRuns(c, r1).iterations == WithRuns(c, r2).iterations;
    }
  }

  lemma {:induction false} EntryKeys(cs: seq<Cycle>, ex: Executions, his: seq<int>, e: (string, Cycle))
    requires |cs| == |his| && e in EntriesUpTo(cs, ex, his)
    ensures exists i :: 0 <= i < |cs| && cs[i].id == e.0
  {
    var n := |cs| - 1;
    if e in EntriesUpTo(cs[..n], ex, his[..n]) {
      EntryKeys(cs[..n], ex, his[..n], e);
    } else {
      assert cs[n].id == e.0;
    }
  }

  // An entry for the last cycle cannot stand for an earlier one.
  lemma NoSpill(cs: seq<Cycle>, ex: Executions, his: seq<int>, a: CycleMap, x: CycleMap, b: CycleMap, y: CycleMap)
    requires cs != [] && |his| == |cs| - 1 && DistinctBy(cs, IdOf)
    requires b == EntriesUpTo(cs[..|cs| - 1], ex, his) && a + x == b + y && |x| <= 1
    requires x != [] ==> x[0].0 == cs[|cs| - 1].id
    ensures |x| <= |y|
  {
    if x != [] && y == [] {
      assert x[0] == (a + x)[|a|] == b[|a|];
      EntryKeys(cs[..|cs| - 1], ex, his, x[0]);
    }
  }

  ghost predicate SameWindows(cs: seq<Cycle>, ex: Executions, h1: seq<int>, h2: seq<int>)
    requires |cs| == |h1| == |h2|
  {
    forall i :: 0 <= i < |cs| ==> SameWindow(ex, cs[i].startTime, h1[i], h2[i])
  }

  lemma SameWindowsStep(cs: seq<Cycle>, ex: Executions, h1: seq<int>, h2: seq<int>, n: nat)
    requires |cs| == |h1| == |h2| == n + 1
    ensures SameWindows(cs, ex, h1, h2) <==>
      SameWindows(cs[..n], ex, h1[..n], h2[..n]) && SameWindow(ex, cs[n].startTime, h1[n], h2[n])
  {
    if SameWindows(cs[..n], ex, h1[..n], h2[..n]) && SameWindow(ex, cs[n].startTime, h1[n], h2[n]) {
      forall i | 0 <= i < |cs| ensures SameWindow(ex, cs[i].startTime, h1[i], h2[i]) {
        if i < n {
          assert SameWindow(ex, cs[..n][i].startTime, h1[..n][i], h2[..n][i]);
        }
      }
    }
  }

  // Two sets of bounds give the same map exactly when they agree cycle by cycle.
  lemma {:induction false} EntriesAgreeIff(cs: seq<Cycle>, ex: Executions, h1: seq<int>, h2: seq<int>)
    requires |cs| == |h1| == |h2| && DistinctBy(cs, IdOf)
    ensures EntriesUpTo(cs, ex, h1) == EntriesUpTo(cs, ex, h2) <==> SameWindows(cs, ex, h1, h2)
  {
    if cs != [] {
      var n := |cs| - 1;
      EntriesAgreeIff(cs[..n], ex, h1[..n], h2[..n]);
      EntryAgreesIff(cs[n], ex, h1[n], h2[n]);
      SameWindowsStep(cs, ex, h1, h2, n);
      SplitLast(cs, ex, h1, h2, n);
    }
  }

  lemma SplitLast(cs: seq<Cycle>, ex: Executions, h1: seq<int>, h2: seq<int>, n: nat)
    requires |cs| == |h1| == |h2| == n + 1 && DistinctBy(cs, IdOf)
    ensures EntriesUpTo(cs, ex, h1) == EntriesUpTo(cs, ex, h2) <==>
      EntriesUpTo(cs[..n], ex, h1[..n]) == EntriesUpTo(cs[..n], ex, h2[..n]) &&
      EntryUpTo(cs[n], ex, h1[n]) == EntryUpTo(cs[n], ex, h2[n])
  {
    var a, b := EntriesUpTo(cs[..n], ex, h1[..n]), EntriesUpTo(cs[..n], ex, h2[..n]);
    var x, y := EntryUpTo(cs[n], ex, h1[n]), EntryUpTo(cs[n], ex, h2[n]);
    if a + x == b + y {
      NoSpill(cs, ex, h2[..n], a, x, b, y);
      NoSpill(cs, ex, h1[..n], b, y, a, x);
      assert a == (a + x)[..|a|] && b == (b + y)[..|b|];
      assert x == (a + x)[|a|..] && y == (b + y)[|b|..];
    }
  }

  // ---- Both forms as entries up to bounds -------------------------------------------

  lemma {:induction false} NormalOfFilled(cs: seq<Cycle>, ex: Executions, his: seq<int>)
    requires |cs| == |his|
    ensures Normal(seq(|cs|, i requires 0 <= i < |cs| => (cs[i].id, WithRuns(cs[i], RunsOfCycle(cs[i], ex, his[i])))))
         == EntriesUpTo(cs, ex, his)
  {
    if cs != [] {
      var n := |cs| - 1;
      var filled := seq(|cs|, i requires 0 <= i < |cs| => (cs[i].id, WithRuns(cs[i], RunsOfCycle(cs[i], ex, his[i]))));
      assert filled[..n] ==
        seq(n, i requires 0 <= i < n => (cs[..n][i].id, WithRuns(cs[..n][i], RunsOfCycle(cs[..n][i], ex, his[..n][i]))));
      NormalOfFilled(cs[..n], ex, his[..n]);
    }
  }

  // Closed cycles end with their end event; open ones are counted up to `upTo`.
  function Bounds(es: seq<Event>, ms: seq<Mark>, upTo: int): (his: seq<int>)
    requires |ms| == |es|
    ensures |his| == |DetectedCycles(es, ms)|
  {
    var closed := ClosedCycles(es, ms, |ms|);
    seq(|closed|, i requires 0 <= i < |closed| => EndOrNow(closed[i], 0))
    + seq(|OpenCycles(es, ms, |SLOTS|)|, i => upTo)
  }

  lemma SinglePassNormal(es: seq<Event>, ms: seq<Mark>, ex: Executions, now: int)
    requires |ms| == |es|
    ensures Normal(BoundaryMap(es, ms, ex, now)) == EntriesUpTo(DetectedCycles(es, ms), ex, Bounds(es, ms, now))
  {
    var cs, his := DetectedCycles(es, ms), Bounds(es, ms, now);
    NormalOfFilled(cs, ex, his);
    var filled := seq(|cs|, i requires 0 <= i < |cs| => (cs[i].id, WithRuns(cs[i], RunsOfCycle(cs[i], ex, his[i]))));
    BoundaryMapFilled(es, ms, ex, now);
    assert BoundaryMap(es, ms, ex, now) == filled;
  }

  lemma BoundaryMapFilled(es: seq<Event>, ms: seq<Mark>, ex: Executions, now: int)
    requires |ms| == |es|
    ensures var cs, his, found := DetectedCycles(es, ms), Bounds(es, ms, now), BoundaryMap(es, ms, ex, now);
            |found| == |cs| && forall i :: 0 <= i < |cs| ==> found[i] == (cs[i].id, WithRuns(cs[i], RunsOfCycle(cs[i], ex, his[i])))
  {
    var closed, open := ClosedCycles(es, ms, |ms|), OpenCycles(es, ms, |SLOTS|);
    forall i | 0 <= i < |closed|
      ensures ClosedEntries(closed, ex)[i] == (closed[i].id, WithRuns(closed[i], RunsOfCycle(closed[i], ex, EndOrNow(closed[i], 0))))
    {
    }
    forall i | 0 <= i < |open|
      ensures OpenEntries(open, ex, now)[i] == (open[i].id, WithRuns(open[i], RunsOfCycle(open[i], ex, now)))
    {
    }
  }

  ghost predicate Ended(cs: seq<Cycle>, his: seq<int>) {
    |cs| == |his| && forall i :: 0 <= i < |cs| ==> cs[i].endTime == Some(his[i]) && !cs[i].isCollapsed
  }

  lemma {:induction false} GroupedUpToEnds(cs: seq<Cycle>, ex: Executions, his: seq<int>, now: int)
    requires Ended(cs, his)
    ensures Grouped(cs, ex, now) == EntriesUpTo(cs, ex, his)
  {
    if cs != [] {
      var n := |cs| - 1;
      GroupedUpToEnds(cs[..n], ex, his[..n], now);
      assert cs[n].endTime == Some(his[n]);
    }
  }

  lemma {:induction false} OpenCyclesEnd(es: seq<Event>, ms: seq<Mark>, k: nat)
    requires |ms| == |es| && k <= |SLOTS|
    ensures forall c :: c in OpenCycles(es, ms, k) ==> es != [] && c.endTime == Some(es[|es| - 1].timestamp) && !c.isCollapsed
  {
    if k > 0 {
      OpenCyclesEnd(es, ms, k - 1);
    }
  }

  lemma TwoPassNormal(es: seq<Event>, ms: seq<Mark>, ex: Executions, now: int)
    requires |ms| == |es|
    ensures var last := if es == [] then 0 else es[|es| - 1].timestamp;
            GroupedMap(DetectedCycles(es, ms), ex, now) == EntriesUpTo(DetectedCycles(es, ms), ex, Bounds(es, ms, last))
  {
    var last := if es == [] then 0 else es[|es| - 1].timestamp;
    var cs, his := DetectedCycles(es, ms), Bounds(es, ms, last);
    DetectedIdsDistinct(es, ms);
    NothingOverwritten(cs, ex, now);
    OpenCyclesEnd(es, ms, |SLOTS|);
    var closed, open := ClosedCycles(es, ms, |ms|), OpenCycles(es, ms, |SLOTS|);
    forall i | 0 <= i < |cs| ensures cs[i].endTime == Some(his[i]) && !cs[i].isCollapsed {
      if i < |closed| {
        assert cs[i] == ClosedCycle(es, ms, Closed(ms, |ms|)[i]);
      } else {
        assert cs[i] == open[i - |closed|] && open[i - |closed|] in open;
      }
    }
    GroupedUpToEnds(cs, ex, his, now);
  }

  // ---- The refinement ----------------------------------------------------------------

  // The last event's time is as good as the clock for every cycle still open.
  ghost predicate ClockIrrelevant(es: seq<Event>, ms: seq<Mark>, ex: Executions, now: int)
    requires |ms| == |es|
  {
    forall slot :: SlotAgrees(es, ms, ex, now, slot)
  }

  ghost predicate SlotAgrees(es: seq<Event>, ms: seq<Mark>, ex: Executions, now: int, slot: Slot)
    requires |ms| == |es|
  {
    var start := OpenStart(ms, |ms|, slot);
    start.Some? ==> SameWindow(ex, es[start.value].timestamp, es[|es| - 1].timestamp, now)
  }

  lemma {:induction false} OpenCyclesAgree(es: seq<Event>, ms: seq<Mark>, ex: Executions, now: int, k: nat)
    requires |ms| == |es| && k <= |SLOTS|
    ensures var last := if es == [] then 0 else es[|es| - 1].timestamp;
      (forall c :: c in OpenCycles(es, ms, k) ==> SameWindow(ex, c.startTime, now, last)) <==>
      (forall j :: 0 <= j < k ==> SlotAgrees(es, ms, ex, now, SLOTS[j]))
  {
    if k > 0 {
      OpenCyclesAgree(es, ms, ex, now, k - 1);
      var last := if es == [] then 0 else es[|es| - 1].timestamp;
      var before, added := OpenCycles(es, ms, k - 1), OpenCycle(es, ms, SLOTS[k - 1]);
      assert forall c :: c in before + added <==> c in before || c in added;
      assert SlotAgrees(es, ms, ex, now, SLOTS[k - 1]) <==>
        (added != [] ==> SameWindow(ex, added[0].startTime, now, last));
    }
  }

  lemma EverySlot(es: seq<Event>, ms: seq<Mark>, ex: Executions, now: int)
    requires |ms| == |es|
    ensures ClockIrrelevant(es, ms, ex, now) <==> forall j :: 0 <= j < |SLOTS| ==> SlotAgrees(es, ms, ex, now, SLOTS[j])
  {
    if forall j :: 0 <= j < |SLOTS| ==> SlotAgrees(es, ms, ex, now, SLOTS[j]) {
      forall slot: Slot ensures SlotAgrees(es, ms, ex, now, slot) {
        match slot
        case Review => assert SlotAgrees(es, ms, ex, now, SLOTS[0]);
        case Repair => assert SlotAgrees(es, ms, ex, now, SLOTS[1]);
        case Conversation => assert SlotAgrees(es, ms, ex, now, SLOTS[2]);
      }
    }
  }

  // The single pass finds the cycles of the two passes, with the same executions, exactly when
  // no execution separates the last event from the clock inside an open cycle.
  lemma RefinesIffClockIrrelevant(es: seq<Event>, ms: seq<Mark>, ex: Executions, now: int)
    requires |ms| == |es|
    ensures Normal(BoundaryMap(es, ms, ex, now)) == GroupedMap(DetectedCycles(es, ms), ex, now) <==>
            ClockIrrelevant(es, ms, ex, now)
  {
    var last := if es == [] then 0 else es[|es| - 1].timestamp;
    SinglePassNormal(es, ms, ex, now);
    TwoPassNormal(es, ms, ex, now);
    DetectedIdsDistinct(es, ms);
    EntriesAgreeIff(DetectedCycles(es, ms), ex, Bounds(es, ms, now), Bounds(es, ms, last));
    OnlyOpenMatter(es, ms, ex, now, last);
    OpenCyclesAgree(es, ms, ex, now, |SLOTS|);
    EverySlot(es, ms, ex, now);
  }

  lemma OnlyOpenMatter(es: seq<Event>, ms: seq<Mark>, ex: Executions, now: int, last: int)
    requires |ms| == |es|
    ensures SameWindows(DetectedCycles(es, ms), ex, Bounds(es, ms, now), Bounds(es, ms, last)) <==>
      forall c :: c in OpenCycles(es, ms, |SLOTS|) ==> SameWindow(ex, c.startTime, now, last)
  {
    var closed := ClosedCycles(es, ms, |ms|);
    CommonBoundsAgree(closed, OpenCycles(es, ms, |SLOTS|), ex,
                      seq(|closed|, i requires 0 <= i < |closed| => EndOrNow(closed[i], 0)), now, last);
  }

  lemma CommonBoundsAgree(closed: seq<Cycle>, open: seq<Cycle>, ex: Executions, ends: seq<int>, now: int, last: int)
    requires |ends| == |closed|
    ensures SameWindows(closed + open, ex, ends + seq(|open|, i => now), ends + seq(|open|, i => last)) <==>
      forall c :: c in open ==> SameWindow(ex, c.startTime, now, last)
  {
    var cs, h1, h2 := closed + open, ends + seq(|open|, i => now), ends + seq(|open|, i => last);
    if SameWindows(cs, ex, h1, h2) {
      forall c | c in open ensures SameWindow(ex, c.startTime, now, last) {
        var i :| 0 <= i < |open| && open[i] == c;
        assert SameWindow(ex, cs[|closed| + i].startTime, h1[|closed| + i], h2[|closed| + i]);
      }
    }
    if forall c :: c in open ==> SameWindow(ex, c.startTime, now, last) {
      forall i | 0 <= i < |cs| ensures SameWindow(ex, cs[i].startTime, h1[i], h2[i]) {
        if i >= |closed| {
          assert cs[i] in open;
        }
      }
    }
  }

  lemma SnakeKeepsTheRest(e: Event)
    ensures Snake(e).timestamp == e.timestamp && Snake(e).id == e.id
  {
  }

  lemma SnakeKeepsOrder(events: seq<Event>)
    ensures Sort(ByTime, Map(Snake, events)) == Map(Snake, Sort(ByTime, events))
  {
    forall a, b ensures ByTime(Snake(a), Snake(b)) == ByTime(a, b) {
      SnakeKeepsTheRest(a);
      SnakeKeepsTheRest(b);
    }
    SortCommutes(ByTime, ByTime, Snake, events);
  }

  lemma SnakeMarks(es: seq<Event>)
    ensures Map(SnakeMark, Map(Snake, es)) == Map(AnyMark, es)
  {
    forall i | 0 <= i < |es| ensures Map(SnakeMark, Map(Snake, es))[i] == Map(AnyMark, es)[i] {
      SnakeIsUnderstood(es[i]);
    }
  }

  // The names the two-pass form does not know change nothing else about an event.
  lemma TwoPassOnSnakeNames(events: seq<Event>)
    ensures var es, es' := Sort(ByTime, events), Sort(ByTime, Map(Snake, events));
            DetectedCycles(es', Map(SnakeMark, es')) == DetectedCycles(es, Map(AnyMark, es))
  {
    var es := Sort(ByTime, events);
    SnakeKeepsOrder(events);
    SnakeMarks(es);
    forall i | 0 <= i < |es| ensures Map(Snake, es)[i].id == es[i].id && Map(Snake, es)[i].timestamp == es[i].timestamp {
      SnakeKeepsTheRest(es[i]);
    }
    SameIdsAndTimes(es, Map(Snake, es), Map(AnyMark, es), |SLOTS|);
  }

  lemma SameClosed(es: seq<Event>, es': seq<Event>, ms: seq<Mark>)
    requires |ms| == |es| == |es'|
    requires forall i :: 0 <= i < |es| ==> es[i].id == es'[i].id && es[i].timestamp == es'[i].timestamp
    ensures ClosedCycles(es', ms, |ms|) == ClosedCycles(es, ms, |ms|)
  {
    forall i | 0 <= i < |Closed(ms, |ms|)|
      ensures ClosedCycles(es', ms, |ms|)[i] == ClosedCycles(es, ms, |ms|)[i]
    {
      assert Closed(ms, |ms|)[i] in Closed(ms, |ms|);
    }
  }

  lemma {:induction false} SameIdsAndTimes(es: seq<Event>, es': seq<Event>, ms: seq<Mark>, k: nat)
    requires |ms| == |es| == |es'| && k <= |SLOTS|
    requires forall i :: 0 <= i < |es| ==> es[i].id == es'[i].id && es[i].timestamp == es'[i].timestamp
    ensures ClosedCycles(es', ms, |ms|) == ClosedCycles(es, ms, |ms|)
    ensures OpenCycles(es', ms, k) == OpenCycles(es, ms, k)
  {
    SameClosed(es, es', ms);
    if k > 0 {
      SameIdsAndTimes(es, es', ms, k - 1);
    }
  }

  // The main result, on the methods themselves: running the single pass on any events, and the
  // two passes on the same events under their snake_case names.
  method CompareForms(events: seq<Event>, ex: Executions, now: int) returns (single: CycleMap, grouped: CycleMap)
    ensures var es := Sort(ByTime, events);
            var found := BoundaryMap(es, Map(AnyMark, es), ex, now);
            && single == (if found == [] then SimpleMap(ex, |ex|) else found)
            && (found != [] ==>
                (Normal(single) == grouped <==> ClockIrrelevant(es, Map(AnyMark, es), ex, now)))
  {
    single := IdentifyCycles(events, ex, now);
    var cycles := DetectCycles(Map(Snake, events));
    grouped := GroupExecutionsIntoCycles(cycles, ex, now);
    TwoPassOnSnakeNames(events);
    RefinesIffClockIrrelevant(Sort(ByTime, events), Map(AnyMark, Sort(ByTime, events)), ex, now);
  }

  // Where no name is one that only the single pass knows, they are compared on the very same events.
  method CompareFormsDirectly(events: seq<Event>, ex: Executions, now: int) returns (single: CycleMap, grouped: CycleMap)
    requires forall e, slot :: e in events ==> !PascalBegins(e, slot) && !PascalFinishes(e, slot)
    ensures var es := Sort(ByTime, events);
            var found := BoundaryMap(es, Map(AnyMark, es), ex, now);
            && single == (if found == [] then SimpleMap(ex, |ex|) else found)
            && (found != [] ==>
                (Normal(single) == grouped <==> ClockIrrelevant(es, Map(AnyMark, es), ex, now)))
  {
    single := IdentifyCycles(events, ex, now);
    var cycles := DetectCycles(events);
    grouped := GroupExecutionsIntoCycles(cycles, ex, now);
    SameMarks(events);
    RefinesIffClockIrrelevant(Sort(ByTime, events), Map(AnyMark, Sort(ByTime, events)), ex, now);
  }

  lemma SameMarks(events: seq<Event>)
    requires forall e, slot :: e in events ==> !PascalBegins(e, slot) && !PascalFinishes(e, slot)
    ensures var es := Sort(ByTime, events); Map(SnakeMark, es) == Map(AnyMark, es)
  {
    var es := Sort(ByTime, events);
    forall i | 0 <= i < |es| ensures Map(SnakeMark, es)[i] == Map(AnyMark, es)[i] {
      SortedElements(ByTime, events, i);
      KnownNamesAgree(es[i]);
    }
  }

  // Executions that start no later than the last event, itself not after now, are enough.
  lemma NoLateExecutions(es: seq<Event>, ms: seq<Mark>, ex: Executions, now: int)
    requires |ms| == |es| && es != [] && es[|es| - 1].timestamp <= now
    requires forall a, i :: 0 <= a < |ex| && 0 <= i < |ex[a].1| ==> ex[a].1[i].startTime <= es[|es| - 1].timestamp
    ensures ClockIrrelevant(es, ms, ex, now)
  {
  }

  // ---- Windows in time -----------------------------------------------------------------

  // Over time-sorted events, windows of one kind meet at most at their end points.
  lemma SameKindWindowsInOrder(events: seq<Event>, a: nat, b: nat)
    requires var es := Sort(ByTime, events); var ms := Map(AnyMark, es);
             a < b < |Closed(ms, |ms|)| && Closed(ms, |ms|)[a].slot == Closed(ms, |ms|)[b].slot
    ensures var es := Sort(ByTime, events); var cs := ClosedCycles(es, Map(AnyMark, es), |es|);
            cs[a].endTime.Some? && cs[a].startTime <= cs[a].endTime.value <= cs[b].startTime
  {
    var es := Sort(ByTime, events);
    var ms := Map(AnyMark, es);
    SameSlotWindowsFollow(ms, |ms|, a, b);
    var v, w := Closed(ms, |ms|)[a], Closed(ms, |ms|)[b];
    assert v in Closed(ms, |ms|) && w in Closed(ms, |ms|);
    InOrderOfTime(events, v.first, v.last);
    InOrderOfTime(events, v.last, w.first);
    assert ClosedCycles(es, ms, |es|)[a] == ClosedCycle(es, ms, v) && ClosedCycles(es, ms, |es|)[b] == ClosedCycle(es, ms, w);
  }

  // And one still open begins no earlier than the closed ones of its kind end.
  lemma OpenCycleComesLast(events: seq<Event>, a: nat, slot: Slot)
    requires var es := Sort(ByTime, events); var ms := Map(AnyMark, es);
             a < |Closed(ms, |ms|)| && Closed(ms, |ms|)[a].slot == slot && OpenStart(ms, |ms|, slot).Some?
    ensures var es := Sort(ByTime, events); var ms := Map(AnyMark, es);
            && OpenCycle(es, ms, slot) != []
            && ClosedCycles(es, ms, |es|)[a].endTime.Some?
            && ClosedCycles(es, ms, |es|)[a].endTime.value <= OpenCycle(es, ms, slot)[0].startTime
  {
    var es := Sort(ByTime, events);
    var ms := Map(AnyMark, es);
    OpenStartFollows(ms, |ms|, a, slot);
    var w := Closed(ms, |ms|)[a];
    assert w in Closed(ms, |ms|);
    InOrderOfTime(events, w.last, OpenStart(ms, |ms|, slot).value);
    assert ClosedCycles(es, ms, |es|)[a] == ClosedCycle(es, ms, w);
  }

  lemma InOrderOfTime(events: seq<Event>, i: nat, j: nat)
    requires i < j < |Sort(ByTime, events)|
    ensures Sort(ByTime, events)[i].timestamp <= Sort(ByTime, events)[j].timestamp
  {
    SortIsSortedPermutation(ByTime, events);
    assert !ByTime(Sort(ByTime, events)[j], Sort(ByTime, events)[i]);
  }
}
