/**
 * Cycle detection over workflow events: the two-pass form (detect, then group
 * executions) and the single-pass form that replaced it.
 *
 * Timestamps are integers (milliseconds); `now` is the clock reading both forms take.
 * JavaScript maps keep insertion order and are sequences of entries with distinct keys.
 */
module CycleDetection {
  import opened CycleWindows
  import opened Distinctness
  import OrderedMap
  import opened StableSorting
  import opened Wrappers

  datatype Event = Event(category: string, kind: string, id: string, timestamp: int)

  datatype Execution = Execution(taskId: string, startTime: int, endTime: Option<int>)

  type Executions = seq<(string, seq<Execution>)>

  // One agent execution listed in a cycle.
  datatype Run = Run(agent: string, taskId: string, executionIndex: nat, timestamp: int)

  datatype Cycle = Cycle(id: string, kind: string, entryPoint: string, exitPoint: string, startTime: int,
                         endTime: Option<int>, iterations: nat, isCollapsed: bool, runs: seq<Run>)

  type CycleMap = seq<(string, Cycle)>

  predicate ByTime(a: Event, b: Event) {
    a.timestamp < b.timestamp
  }

  // ---- Event types ---------------------------------------------------------

  // The two-pass form knows the snake_case event types only.
  function SnakeMark(e: Event): Mark {
    if e.category != "decision" then Neither
    else if e.kind == "review_cycle_started" then Starts(Review)
    else if e.kind == "review_cycle_completed" then Ends(Review)
    else if e.kind == "repair_cycle_test_cycle_started" || e.kind == "repair_cycle_fix_cycle_started" then Starts(Repair)
    else if e.kind == "repair_cycle_test_cycle_completed" || e.kind == "repair_cycle_fix_cycle_completed" then Ends(Repair)
    else if e.kind == "conversational_loop_started" then Starts(Conversation)
    else if e.kind == "conversational_loop_completed" then Ends(Conversation)
    else Neither
  }

  // The single-pass form knows the PascalCase names too.
  function AnyMark(e: Event): Mark {
    if e.category != "decision" then Neither
    else if e.kind == "ReviewCycleStarted" || e.kind == "review_cycle_started" then Starts(Review)
    else if e.kind == "ReviewCycleCompleted" || e.kind == "review_cycle_completed" then Ends(Review)
    else if e.kind == "RepairCycleTestCycleStarted" || e.kind == "repair_cycle_test_cycle_started"
         || e.kind == "RepairCycleFixCycleStarted" || e.kind == "repair_cycle_fix_cycle_started" then Starts(Repair)
    else if e.kind == "RepairCycleTestCycleCompleted" || e.kind == "repair_cycle_test_cycle_completed"
         || e.kind == "RepairCycleFixCycleCompleted" || e.kind == "repair_cycle_fix_cycle_completed" then Ends(Repair)
    else if e.kind == "ConversationalLoopStarted" || e.kind == "conversational_loop_started" then Starts(Conversation)
    else if e.kind == "ConversationalLoopCompleted" || e.kind == "conversational_loop_completed" then Ends(Conversation)
    else Neither
  }

  // The event with its type in the form the two-pass code knows.
  function Snake(e: Event): Event {
    match AnyMark(e)
    case Starts(Review) => e.(kind := "review_cycle_started")
    case Ends(Review) => e.(kind := "review_cycle_completed")
    case Starts(Repair) => e.(kind := "repair_cycle_test_cycle_started")
    case Ends(Repair) => e.(kind := "repair_cycle_test_cycle_completed")
    case Starts(Conversation) => e.(kind := "conversational_loop_started")
    case Ends(Conversation) => e.(kind := "conversational_loop_completed")
    case Neither => e
  }

  // Lengths alone tell the snake_case names apart.
  lemma SnakeNames(kind: string)
    ensures kind == "review_cycle_started" ==> |kind| == 20
    ensures kind == "review_cycle_completed" ==> |kind| == 22
    ensures kind == "repair_cycle_test_cycle_started" ==> |kind| == 31
    ensures kind == "repair_cycle_fix_cycle_started" ==> |kind| == 30
    ensures kind == "repair_cycle_test_cycle_completed" ==> |kind| == 33
    ensures kind == "repair_cycle_fix_cycle_completed" ==> |kind| == 32
    ensures kind == "conversational_loop_started" ==> |kind| == 27
    ensures kind == "conversational_loop_completed" ==> |kind| == 29
  {
  }

  lemma SnakeIsUnderstood(e: Event)
    ensures SnakeMark(Snake(e)) == AnyMark(e)
  {
    SnakeNames(Snake(e).kind);
  }

  // ---- The cycles, read off the windows -------------------------------------

  function KindOf(slot: Slot): string {
    match slot case Review => "review" case Repair => "repair" case Conversation => "conversation"
  }

  // A cycle as it stands when its start event is seen.
  function StartedCycle(es: seq<Event>, ms: seq<Mark>, slot: Slot, first: nat): Cycle
    requires |ms| == |es| && first < |es|
  {
    Cycle(CycleId(ms, slot, first), KindOf(slot), es[first].id, "", es[first].timestamp, None, 0, false, [])
  }

  function ClosedCycle(es: seq<Event>, ms: seq<Mark>, w: Window): Cycle
    requires |ms| == |es| && w.first < |es| && w.last < |es|
  {
    StartedCycle(es, ms, w.slot, w.first).(exitPoint := es[w.last].id, endTime := Some(es[w.last].timestamp))
  }

  function ClosedCycles(es: seq<Event>, ms: seq<Mark>, n: nat): (cs: seq<Cycle>)
    requires |ms| == |es| && n <= |es|
    ensures |cs| == |Closed(ms, n)|
    ensures forall k :: 0 <= k < |cs| ==> Closed(ms, n)[k] in Closed(ms, n) && cs[k] == ClosedCycle(es, ms, Closed(ms, n)[k])
  {
    var ws := Closed(ms, n);
    seq(|ws|, k requires 0 <= k < |ws| => assert ws[k] in ws; ClosedCycle(es, ms, ws[k]))
  }

  const SLOTS: seq<Slot> := [Review, Repair, Conversation]

  // Cycles that are open after the last event end, for now, with it.
  function OpenCycle(es: seq<Event>, ms: seq<Mark>, slot: Slot): seq<Cycle>
    requires |ms| == |es|
  {
    match OpenStart(ms, |ms|, slot)
    case None => []
    case Some(i) => [StartedCycle(es, ms, slot, i).(endTime := Some(es[|es| - 1].timestamp))]
  }

  function OpenCycles(es: seq<Event>, ms: seq<Mark>, k: nat): seq<Cycle>
    requires |ms| == |es| && k <= |SLOTS|
  {
    if k == 0 then [] else OpenCycles(es, ms, k - 1) + OpenCycle(es, ms, SLOTS[k - 1])
  }

  function DetectedCycles(es: seq<Event>, ms: seq<Mark>): seq<Cycle>
    requires |ms| == |es|
  {
    ClosedCycles(es, ms, |ms|) + OpenCycles(es, ms, |SLOTS|)
  }

  // ---- First pass: boundaries -------------------------------------------------

  type Slots = map<Slot, Option<Cycle>>

  // The slots as the windows say they should be after n events.
  ghost predicate SlotsMatch(open: Slots, es: seq<Event>, ms: seq<Mark>, n: nat)
    requires |ms| == |es| && n <= |es|
  {
    forall slot :: slot in open &&
      open[slot] == (match OpenStart(ms, n, slot)
                     case None => None
                     case Some(i) => Some(StartedCycle(es, ms, slot, i)))
  }

  // What the first pass does with one event.
  function OpenAfter(open: Slots, closed: nat, event: Event, mark: Mark): Slots {
    match mark
    case Starts(slot) =>
      open[slot := Some(Cycle(NumberedId(slot, closed + 1), KindOf(slot), event.id, "", event.timestamp, None, 0, false, []))]
    case Ends(slot) => open[slot := None]
    case Neither => open
  }

  function ClosedBy(open: Slots, event: Event, mark: Mark): seq<Cycle>
    requires forall slot :: slot in open
  {
    if mark.Ends? && open[mark.slot] != None
    then [open[mark.slot].value.(endTime := Some(event.timestamp), exitPoint := event.id)]
    else []
  }

  lemma ClosedCyclesStep(es: seq<Event>, ms: seq<Mark>, open: Slots, n: nat)
    requires |ms| == |es| && n < |es| && SlotsMatch(open, es, ms, n)
    ensures ClosedCycles(es, ms, n + 1) == ClosedCycles(es, ms, n) + ClosedBy(open, es[n], ms[n])
  {
    if ms[n].Ends? {
      assert ms[n].slot in open;
    }
  }

  lemma SlotsStep(es: seq<Event>, ms: seq<Mark>, open: Slots, n: nat)
    requires |ms| == |es| && n < |es| && SlotsMatch(open, es, ms, n)
    ensures SlotsMatch(OpenAfter(open, |Closed(ms, n)|, es[n], ms[n]), es, ms, n + 1)
  {
    var after := OpenAfter(open, |Closed(ms, n)|, es[n], ms[n]);
    forall slot: Slot
      ensures slot in after && after[slot] ==
        (match OpenStart(ms, n + 1, slot)
         case None => None
         case Some(i) => Some(StartedCycle(es, ms, slot, i)))
    {
      assert slot in open;
      if ms[n] == Starts(slot) {
        assert after[slot] == Some(StartedCycle(es, ms, slot, n));
      } else if ms[n] != Ends(slot) {
        assert after[slot] == open[slot];
        assert OpenStart(ms, n + 1, slot) == OpenStart(ms, n, slot);
      }
    }
  }

  function Detected(events: seq<Event>): seq<Cycle> {
    var es := Sort(ByTime, events);
    DetectedCycles(es, Map(SnakeMark, es))
  }

  method DetectCycles(events: seq<Event>) returns (cycles: seq<Cycle>)
    ensures cycles == Detected(events)
  {
    var es := Sort(ByTime, events);
    var ms := Map(SnakeMark, es);
    cycles := FindBoundaries(es, ms);
  }

  method FindBoundaries(es: seq<Event>, ms: seq<Mark>) returns (cycles: seq<Cycle>)
    requires |ms| == |es|
    ensures cycles == DetectedCycles(es, ms)
  {
    var open := NoOpenCycles(es, ms);
    cycles := [];
    for n := 0 to |es|
      invariant SlotsMatch(open, es, ms, n)
      invariant cycles == ClosedCycles(es, ms, n)
    {
      ClosedCyclesStep(es, ms, open, n);
      SlotsStep(es, ms, open, n);
      cycles, open := cycles + ClosedBy(open, es[n], ms[n]), OpenAfter(open, |cycles|, es[n], ms[n]);
    }
    var rest := CloseRemaining(open, es, ms);
    cycles := cycles + rest;
  }

  method NoOpenCycles(ghost es: seq<Event>, ghost ms: seq<Mark>) returns (open: Slots)
    requires |ms| == |es|
    ensures SlotsMatch(open, es, ms, 0)
  {
    open := map[Review := None, Repair := None, Conversation := None];
    forall slot: Slot ensures slot in open && open[slot] == None {
      match slot case Review => case Repair => case Conversation =>
    }
  }

  // The slots left open, as cycles ending with the last event.
  function LeftOpen(open: Slots, es: seq<Event>, slot: Slot): seq<Cycle>
    requires slot in open && (open[slot] != None ==> es != [])
  {
    if open[slot] == None then [] else [open[slot].value.(endTime := Some(es[|es| - 1].timestamp))]
  }

  lemma LeftOpenIsOpenCycle(open: Slots, es: seq<Event>, ms: seq<Mark>, slot: Slot)
    requires |ms| == |es| && SlotsMatch(open, es, ms, |es|)
    ensures slot in open && (open[slot] != None ==> es != []) && LeftOpen(open, es, slot) == OpenCycle(es, ms, slot)
  {
  }

  method CloseRemaining(open: Slots, es: seq<Event>, ghost ms: seq<Mark>) returns (cycles: seq<Cycle>)
    requires |ms| == |es| && SlotsMatch(open, es, ms, |es|)
    ensures cycles == OpenCycles(es, ms, |SLOTS|)
  {
    cycles := [];
    for k := 0 to |SLOTS|
      invariant cycles == OpenCycles(es, ms, k)
    {
      LeftOpenIsOpenCycle(open, es, ms, SLOTS[k]);
      cycles := cycles + LeftOpen(open, es, SLOTS[k]);
    }
  }

  // ---- Collecting executions ---------------------------------------------------

  // The first n executions of an agent that start within [lo, hi], with their index for that agent.
  function RunsOf(agent: string, execs: seq<Execution>, n: nat, lo: int, hi: int): seq<Run>
    requires n <= |execs|
  {
    if n == 0 then []
    else
      var e := execs[n - 1];
      RunsOf(agent, execs, n - 1, lo, hi)
      + (if lo <= e.startTime <= hi then [Run(agent, e.taskId, n - 1, e.startTime)] else [])
  }

  function RunsWithin(ex: Executions, n: nat, lo: int, hi: int): seq<Run>
    requires n <= |ex|
  {
    if n == 0 then []
    else RunsWithin(ex, n - 1, lo, hi) + RunsOf(ex[n - 1].0, ex[n - 1].1, |ex[n - 1].1|, lo, hi)
  }

  // The two-pass form counts through all agents instead.
  function Renumbered(runs: seq<Run>): seq<Run> {
    seq(|runs|, i requires 0 <= i < |runs| => runs[i].(executionIndex := i))
  }

  method CollectRuns(ex: Executions, lo: int, hi: int) returns (runs: seq<Run>)
    ensures runs == RunsWithin(ex, |ex|, lo, hi)
  {
    runs := [];
    for a := 0 to |ex|
      invariant runs == RunsWithin(ex, a, lo, hi)
    {
      var agent, execs := ex[a].0, ex[a].1;
      for index := 0 to |execs|
        invariant runs == RunsWithin(ex, a, lo, hi) + RunsOf(agent, execs, index, lo, hi)
      {
        var execTime := execs[index].startTime;
        if execTime >= lo && execTime <= hi {
          runs := runs + [Run(agent, execs[index].taskId, index, execTime)];
        }
      }
    }
  }

  method CollectCounted(ex: Executions, lo: int, hi: int) returns (runs: seq<Run>)
    ensures runs == Renumbered(RunsWithin(ex, |ex|, lo, hi))
  {
    runs := [];
    var executionIndex := 0;
    for a := 0 to |ex|
      invariant runs == Renumbered(RunsWithin(ex, a, lo, hi)) && executionIndex == |runs|
    {
      var agent, execs := ex[a].0, ex[a].1;
      for index := 0 to |execs|
        invariant runs == Renumbered(RunsWithin(ex, a, lo, hi) + RunsOf(agent, execs, index, lo, hi))
        invariant executionIndex == |runs|
      {
        var execStart := execs[index].startTime;
        if execStart >= lo && execStart <= hi {
          runs := runs + [Run(agent, execs[index].taskId, executionIndex, execStart)];
          executionIndex := executionIndex + 1;
        }
      }
    }
  }

  // ---- Second pass: grouping -----------------------------------------------------

  function WithRuns(c: Cycle, runs: seq<Run>): Cycle {
    c.(runs := runs, iterations := |runs|)
  }

  function EndOrNow(c: Cycle, now: int): int {
    if c.endTime == None then now else c.endTime.value
  }

  function RunsOfCycle(c: Cycle, ex: Executions, hi: int): seq<Run> {
    RunsWithin(ex, |ex|, c.startTime, hi)
  }

  // What grouping makes of one cycle: an entry if it has executions.
  function GroupedEntry(c: Cycle, ex: Executions, now: int): CycleMap {
    var runs := Renumbered(RunsOfCycle(c, ex, EndOrNow(c, now)));
    if runs == [] then [] else [(c.id, WithRuns(c, runs).(isCollapsed := false))]
  }

  // The map the source fills, entry by entry.
  function GroupedMap(cycles: seq<Cycle>, ex: Executions, now: int): CycleMap {
    if cycles == [] then []
    else
      var front := GroupedMap(cycles[..|cycles| - 1], ex, now);
      var entry := GroupedEntry(cycles[|cycles| - 1], ex, now);
      if entry == [] then front else OrderedMap.Set(front, entry[0].0, entry[0].1)
  }

  method GroupExecutionsIntoCycles(cycles: seq<Cycle>, ex: Executions, now: int) returns (cycleMap: CycleMap)
    ensures cycleMap == GroupedMap(cycles, ex, now)
  {
    cycleMap := [];
    for i := 0 to |cycles|
      invariant cycleMap == GroupedMap(cycles[..i], ex, now)
    {
      var cycle := cycles[i];
      var runs := CollectCounted(ex, cycle.startTime, EndOrNow(cycle, now));
      assert cycles[..i + 1][..i] == cycles[..i];
      if |runs| > 0 {
        cycleMap := OrderedMap.Set(cycleMap, cycle.id, WithRuns(cycle, runs).(isCollapsed := false));
      }
    }
    assert cycles[..|cycles|] == cycles;
  }

  function IdOf(c: Cycle): string {
    c.id
  }

  // With distinct identifiers nothing is overwritten.
  function Grouped(cycles: seq<Cycle>, ex: Executions, now: int): CycleMap {
    if cycles == [] then []
    else Grouped(cycles[..|cycles| - 1], ex, now) + GroupedEntry(cycles[|cycles| - 1], ex, now)
  }

  lemma {:induction false} GroupedKeys(cycles: seq<Cycle>, ex: Executions, now: int, e: (string, Cycle))
    requires e in Grouped(cycles, ex, now)
    ensures exists c :: c in cycles && c.id == e.0
  {
    var last := cycles[|cycles| - 1];
    if e in Grouped(cycles[..|cycles| - 1], ex, now) {
      GroupedKeys(cycles[..|cycles| - 1], ex, now, e);
    } else {
      assert last in cycles;
    }
  }

  lemma {:induction false} NothingOverwritten(cycles: seq<Cycle>, ex: Executions, now: int)
    requires DistinctBy(cycles, IdOf)
    ensures GroupedMap(cycles, ex, now) == Grouped(cycles, ex, now)
  {
    if cycles != [] {
      var front, last := cycles[..|cycles| - 1], cycles[|cycles| - 1];
      NothingOverwritten(front, ex, now);
      if OrderedMap.Has(Grouped(front, ex, now), last.id) {
        var k :| 0 <= k < |Grouped(front, ex, now)| && Grouped(front, ex, now)[k].0 == last.id;
        GroupedKeys(front, ex, now, Grouped(front, ex, now)[k]);
      }
    }
  }

  lemma OpenCycleIds(es: seq<Event>, ms: seq<Mark>, k: nat, c: Cycle)
    requires |ms| == |es| && k <= |SLOTS| && c in OpenCycles(es, ms, k)
    ensures exists j ::
      0 <= j < k && OpenStart(ms, |ms|, SLOTS[j]).Some? &&
      c.id == CycleId(ms, SLOTS[j], OpenStart(ms, |ms|, SLOTS[j]).value)
  {
    if c !in OpenCycle(es, ms, SLOTS[k - 1]) {
      OpenCycleIds(es, ms, k - 1, c);
    }
  }

  lemma ClosedCyclesDistinct(es: seq<Event>, ms: seq<Mark>)
    requires |ms| == |es|
    ensures DistinctBy(ClosedCycles(es, ms, |ms|), IdOf)
  {
    var closed := ClosedCycles(es, ms, |ms|);
    forall i, j | 0 <= i < j < |closed| ensures closed[i].id != closed[j].id {
      ClosedIdsDiffer(ms, |ms|, i, j);
    }
  }

  lemma OneMoreDistinct(before: seq<Cycle>, c: Cycle)
    requires DistinctBy(before, IdOf) && forall b :: b in before ==> b.id != c.id
    ensures DistinctBy(before + [c], IdOf)
  {
    forall i | 0 <= i < |before| ensures before[i].id != c.id {
      assert before[i] in before;
    }
  }

  // A slot's open cycle is named differently from all closed ones and those of earlier slots.
  lemma OpenCycleIsNew(es: seq<Event>, ms: seq<Mark>, k: nat, b: Cycle)
    requires |ms| == |es| && k < |SLOTS| && OpenStart(ms, |ms|, SLOTS[k]).Some?
    requires b in ClosedCycles(es, ms, |ms|) || b in OpenCycles(es, ms, k)
    ensures b.id != CycleId(ms, SLOTS[k], OpenStart(ms, |ms|, SLOTS[k]).value)
  {
    if b in ClosedCycles(es, ms, |ms|) {
      NotClosedBefore(es, ms, SLOTS[k], b);
    } else {
      NotOpenBefore(es, ms, k, b);
    }
  }

  lemma NotClosedBefore(es: seq<Event>, ms: seq<Mark>, slot: Slot, b: Cycle)
    requires |ms| == |es| && OpenStart(ms, |ms|, slot).Some? && b in ClosedCycles(es, ms, |ms|)
    ensures b.id != CycleId(ms, slot, OpenStart(ms, |ms|, slot).value)
  {
    var i :| 0 <= i < |ClosedCycles(es, ms, |ms|)| && ClosedCycles(es, ms, |ms|)[i] == b;
    OpenIdDiffers(ms, |ms|, i, slot);
  }

  lemma NotOpenBefore(es: seq<Event>, ms: seq<Mark>, k: nat, b: Cycle)
    requires |ms| == |es| && k < |SLOTS| && OpenStart(ms, |ms|, SLOTS[k]).Some? && b in OpenCycles(es, ms, k)
    ensures b.id != CycleId(ms, SLOTS[k], OpenStart(ms, |ms|, SLOTS[k]).value)
  {
    OpenCycleIds(es, ms, k, b);
    var j :| 0 <= j < k && OpenStart(ms, |ms|, SLOTS[j]).Some? &&
      b.id == CycleId(ms, SLOTS[j], OpenStart(ms, |ms|, SLOTS[j]).value);
    SlotsDiffer(j, k);
    PrefixesDiffer(ms, SLOTS[j], OpenStart(ms, |ms|, SLOTS[j]).value, SLOTS[k], OpenStart(ms, |ms|, SLOTS[k]).value);
  }

  lemma SlotsDiffer(j: nat, k: nat)
    requires j < k < |SLOTS|
    ensures SLOTS[j] != SLOTS[k]
  {
  }

  // Every cycle found has an identifier of its own, closed or still open.
  lemma DetectedIdsDistinct(es: seq<Event>, ms: seq<Mark>)
    requires |ms| == |es|
    ensures DistinctBy(DetectedCycles(es, ms), IdOf)
  {
    ClosedCyclesDistinct(es, ms);
    assert ClosedCycles(es, ms, |ms|) + OpenCycles(es, ms, 0) == ClosedCycles(es, ms, |ms|);
    WithOpenCycle(es, ms, 0);
    WithOpenCycle(es, ms, 1);
    WithOpenCycle(es, ms, 2);
  }

  lemma WithOpenCycle(es: seq<Event>, ms: seq<Mark>, k: nat)
    requires |ms| == |es| && k < |SLOTS| && DistinctBy(ClosedCycles(es, ms, |ms|) + OpenCycles(es, ms, k), IdOf)
    ensures DistinctBy(ClosedCycles(es, ms, |ms|) + OpenCycles(es, ms, k + 1), IdOf)
  {
    var before, open := ClosedCycles(es, ms, |ms|) + OpenCycles(es, ms, k), OpenCycle(es, ms, SLOTS[k]);
    assert ClosedCycles(es, ms, |ms|) + OpenCycles(es, ms, k + 1) == before + open;
    if open != [] {
      forall b | b in before ensures b.id != open[0].id {
        OpenCycleIsNew(es, ms, k, b);
      }
      OneMoreDistinct(before, open[0]);
    }
  }

  // ---- The single pass -----------------------------------------------------------

  // Closed cycles take their executions up to their end, open ones up to now.
  function FilledClosed(c: Cycle, ex: Executions): Cycle {
    WithRuns(c, RunsOfCycle(c, ex, EndOrNow(c, 0)))
  }

  function FilledOpen(c: Cycle, ex: Executions, now: int): Cycle {
    WithRuns(c, RunsOfCycle(c, ex, now))
  }

  function ClosedEntries(cycles: seq<Cycle>, ex: Executions): CycleMap {
    seq(|cycles|, i requires 0 <= i < |cycles| => (cycles[i].id, FilledClosed(cycles[i], ex)))
  }

  function OpenEntries(cycles: seq<Cycle>, ex: Executions, now: int): CycleMap {
    seq(|cycles|, i requires 0 <= i < |cycles| => (cycles[i].id, FilledOpen(cycles[i], ex, now)))
  }

  function BoundaryMap(es: seq<Event>, ms: seq<Mark>, ex: Executions, now: int): CycleMap
    requires |ms| == |es|
  {
    ClosedEntries(ClosedCycles(es, ms, |ms|), ex) + OpenEntries(OpenCycles(es, ms, |SLOTS|), ex, now)
  }

  // The fallback: every agent that ran more than once.
  function SimpleEntry(agent: string, execs: seq<Execution>): CycleMap {
    if |execs| <= 1 then []
    else
      var runs := seq(|execs|, i requires 0 <= i < |execs| => Run(agent, execs[i].taskId, i, execs[i].startTime));
      [(agent + "_cycle",
        Cycle(agent + "_cycle", "unknown", "", "", execs[0].startTime, execs[|execs| - 1].endTime, |execs|, false, runs))]
  }

  function SimpleMap(ex: Executions, n: nat): CycleMap
    requires n <= |ex|
  {
    if n == 0 then []
    else
      var front := SimpleMap(ex, n - 1);
      var entry := SimpleEntry(ex[n - 1].0, ex[n - 1].1);
      if entry == [] then front else OrderedMap.Set(front, entry[0].0, entry[0].1)
  }

  method IdentifyCyclesSimple(ex: Executions) returns (cycles: CycleMap)
    ensures cycles == SimpleMap(ex, |ex|)
  {
    cycles := [];
    for a := 0 to |ex|
      invariant cycles == SimpleMap(ex, a)
    {
      var agent, execs := ex[a].0, ex[a].1;
      if |execs| > 1 {
        var runs := seq(|execs|, i requires 0 <= i < |execs| => Run(agent, execs[i].taskId, i, execs[i].startTime));
        var cycle := Cycle(agent + "_cycle", "unknown", "", "", execs[0].startTime, execs[|execs| - 1].endTime,
                           |execs|, false, runs);
        cycles := OrderedMap.Set(cycles, cycle.id, cycle);
      }
    }
  }

  lemma NewClosedKey(es: seq<Event>, ms: seq<Mark>, ex: Executions, n: nat, slot: Slot)
    requires |ms| == |es| && n <= |es| && OpenStart(ms, n, slot).Some?
    ensures !OrderedMap.Has(ClosedEntries(ClosedCycles(es, ms, n), ex), CycleId(ms, slot, OpenStart(ms, n, slot).value))
  {
    var entries := ClosedEntries(ClosedCycles(es, ms, n), ex);
    forall i | 0 <= i < |entries|
      ensures entries[i].0 != CycleId(ms, slot, OpenStart(ms, n, slot).value)
    {
      OpenIdDiffers(ms, n, i, slot);
    }
  }

  // The cycles between boundary events, or without any the agents that ran more than once.
  function Identified(events: seq<Event>, ex: Executions, now: int): CycleMap {
    var es := Sort(ByTime, events);
    var found := BoundaryMap(es, Map(AnyMark, es), ex, now);
    if found == [] then SimpleMap(ex, |ex|) else found
  }

  method IdentifyCycles(events: seq<Event>, ex: Executions, now: int) returns (cycleMap: CycleMap)
    ensures cycleMap == Identified(events, ex, now)
  {
    var es := Sort(ByTime, events);
    cycleMap := SinglePass(es, Map(AnyMark, es), ex, now);
    if |cycleMap| == 0 {
      cycleMap := IdentifyCyclesSimple(ex);
    }
  }

  method SinglePass(es: seq<Event>, ms: seq<Mark>, ex: Executions, now: int) returns (cycleMap: CycleMap)
    requires |ms| == |es|
    ensures cycleMap == BoundaryMap(es, ms, ex, now)
  {
    var open := NoOpenCycles(es, ms);
    cycleMap := [];
    for n := 0 to |es|
      invariant SlotsMatch(open, es, ms, n)
      invariant cycleMap == ClosedEntries(ClosedCycles(es, ms, n), ex)
    {
      var size := |cycleMap|;
      cycleMap := CloseAt(cycleMap, open, es, ms, ex, n);
      SlotsStep(es, ms, open, n);
      open := OpenAfter(open, size, es[n], ms[n]);
    }
    cycleMap := CloseRemainingInto(cycleMap, open, es, ms, ex, now);
  }

  method CloseAt(entries: CycleMap, open: Slots, es: seq<Event>, ms: seq<Mark>, ex: Executions, n: nat) returns (cycleMap: CycleMap)
    requires |ms| == |es| && n < |es| && SlotsMatch(open, es, ms, n)
    requires entries == ClosedEntries(ClosedCycles(es, ms, n), ex)
    ensures cycleMap == ClosedEntries(ClosedCycles(es, ms, n + 1), ex)
  {
    cycleMap := entries;
    var closing := ClosedBy(open, es[n], ms[n]);
    ClosedCyclesStep(es, ms, open, n);
    OneMoreClosedEntry(ClosedCycles(es, ms, n), closing, ex);
    if closing != [] {
      var cycle := closing[0];
      var runs := CollectRuns(ex, cycle.startTime, es[n].timestamp);
      NewClosedKey(es, ms, ex, n, ms[n].slot);
      cycleMap := OrderedMap.Set(cycleMap, cycle.id, WithRuns(cycle, runs));
      assert WithRuns(cycle, runs) == FilledClosed(cycle, ex);
    }
  }

  lemma OneMoreClosedEntry(cycles: seq<Cycle>, more: seq<Cycle>, ex: Executions)
    ensures ClosedEntries(cycles + more, ex) == ClosedEntries(cycles, ex) + ClosedEntries(more, ex)
  {
  }

  method CloseRemainingInto(entries: CycleMap, open: Slots, es: seq<Event>, ghost ms: seq<Mark>, ex: Executions, now: int)
      returns (cycleMap: CycleMap)
    requires |ms| == |es| && SlotsMatch(open, es, ms, |es|)
    requires entries == ClosedEntries(ClosedCycles(es, ms, |es|), ex)
    ensures cycleMap == BoundaryMap(es, ms, ex, now)
  {
    cycleMap := entries;
    for k := 0 to |SLOTS|
      invariant cycleMap == entries + OpenEntries(OpenCycles(es, ms, k), ex, now)
    {
      LeftOpenStep(open, es, ms, ex, now, k);
      cycleMap := AddOpen(cycleMap, LeftOpen(open, es, SLOTS[k]), ex, now);
    }
  }

  lemma LeftOpenStep(open: Slots, es: seq<Event>, ms: seq<Mark>, ex: Executions, now: int, k: nat)
    requires |ms| == |es| && SlotsMatch(open, es, ms, |es|) && k < |SLOTS|
    ensures SLOTS[k] in open && (open[SLOTS[k]] != None ==> es != [])
    ensures var left := LeftOpen(open, es, SLOTS[k]);
            var before := OpenEntries(OpenCycles(es, ms, k), ex, now);
            && OpenEntries(OpenCycles(es, ms, k + 1), ex, now) == before + OpenEntries(left, ex, now)
            && (left != [] ==> !OrderedMap.Has(ClosedEntries(ClosedCycles(es, ms, |es|), ex) + before, left[0].id))
  {
    LeftOpenIsOpenCycle(open, es, ms, SLOTS[k]);
    var left := LeftOpen(open, es, SLOTS[k]);
    OneMoreEntry(OpenCycles(es, ms, k), left, ex, now);
    if left != [] {
      NewOpenKey(es, ms, ex, now, k, left[0]);
    }
  }

  lemma OneMoreEntry(cycles: seq<Cycle>, more: seq<Cycle>, ex: Executions, now: int)
    ensures OpenEntries(cycles + more, ex, now) == OpenEntries(cycles, ex, now) + OpenEntries(more, ex, now)
  {
  }

  method AddOpen(entries: CycleMap, left: seq<Cycle>, ex: Executions, now: int) returns (cycleMap: CycleMap)
    requires |left| <= 1 && (left != [] ==> !OrderedMap.Has(entries, left[0].id))
    ensures cycleMap == entries + OpenEntries(left, ex, now)
  {
    cycleMap := entries;
    if left != [] {
      var runs := CollectRuns(ex, left[0].startTime, now);
      cycleMap := OrderedMap.Set(cycleMap, left[0].id, WithRuns(left[0], runs));
    }
  }

  lemma NewOpenKey(es: seq<Event>, ms: seq<Mark>, ex: Executions, now: int, k: nat, cycle: Cycle)
    requires |ms| == |es| && k < |SLOTS| && OpenCycle(es, ms, SLOTS[k]) == [cycle]
    ensures !OrderedMap.Has(ClosedEntries(ClosedCycles(es, ms, |es|), ex)
                            + OpenEntries(OpenCycles(es, ms, k), ex, now), cycle.id)
  {
    var closed, open := ClosedCycles(es, ms, |es|), OpenCycles(es, ms, k);
    forall b | b in closed || b in open ensures b.id != cycle.id {
      OpenCycleIsNew(es, ms, k, b);
    }
    var entries := ClosedEntries(closed, ex) + OpenEntries(open, ex, now);
    forall i | 0 <= i < |entries| ensures entries[i].0 != cycle.id {
      assert if i < |closed| then entries[i].0 == closed[i].id && closed[i] in closed
             else entries[i].0 == open[i - |closed|].id && open[i - |closed|] in open;
    }
  }
}
