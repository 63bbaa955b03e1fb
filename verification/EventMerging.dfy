/**
 * Merging a polled list of events with a live stream. Timestamps are normalised: None for a
 * missing or unreadable one. As in the source, 0 counts as missing, and a missing timestamp
 * sorts as 0.
 */
module EventMerging {
  import opened StableSorting
  import opened Wrappers

  datatype Event = Event(id: string, runId: Option<string>, at: Option<int>)

  datatype PipelineRun = PipelineRun(id: string, startedAt: Option<int>, endedAt: Option<int>)

  predicate Known(t: Option<int>) {
    t.Some? && t.value != 0
  }

  function OrZero(t: Option<int>): int {
    if t.Some? then t.value else 0
  }

  predicate Earlier(a: Event, b: Event) {
    OrZero(a.at) < OrZero(b.at)
  }

  // The latest time in a non-empty list.
  function Latest(events: seq<Event>): int
    requires events != []
  {
    var last := OrZero(events[|events| - 1].at);
    if |events| == 1 then last
    else
      var before := Latest(events[..|events| - 1]);
      if before < last then last else before
  }

  lemma {:induction false} LatestIsMax(events: seq<Event>)
    requires events != []
    ensures forall e :: e in events ==> OrZero(e.at) <= Latest(events)
    ensures exists e :: e in events && OrZero(e.at) == Latest(events)
  {
    var front, last := events[..|events| - 1], events[|events| - 1];
    assert events == front + [last];
    assert last in events;
    if |events| > 1 {
      LatestIsMax(front);
      var m :| m in front && OrZero(m.at) == Latest(front);
      assert m in events;
    }
  }

  // Where the live events take over: after the polled ones, or after the start of the run.
  function Horizon(api: seq<Event>, run: PipelineRun): int {
    if api != [] then Latest(api) else OrZero(run.startedAt)
  }

  predicate InWindow(e: Event, run: PipelineRun) {
    && e.runId == Some(run.id)
    && Known(e.at) && Known(run.startedAt)
    && run.startedAt.value <= e.at.value
    && (Known(run.endedAt) ==> e.at.value <= run.endedAt.value)
  }

  predicate Accepted(e: Event, horizon: int, run: PipelineRun) {
    InWindow(e, run) && OrZero(e.at) > horizon
  }

  function NewEvents(live: seq<Event>, horizon: int, run: PipelineRun): seq<Event> {
    if live == [] then []
    else
      NewEvents(live[..|live| - 1], horizon, run)
      + (if Accepted(live[|live| - 1], horizon, run) then [live[|live| - 1]] else [])
  }

  function Merged(api: seq<Event>, live: seq<Event>, run: PipelineRun): seq<Event> {
    Sort(Earlier, api + NewEvents(live, Horizon(api, run), run))
  }

  method MergePipelineRunEvents(api: seq<Event>, live: seq<Event>, pipelineRun: Option<PipelineRun>) returns (events: seq<Event>)
    ensures pipelineRun == None ==> events == []
    ensures pipelineRun.Some? ==> events == Merged(api, live, pipelineRun.value)
  {
    if pipelineRun == None {
      return [];
    }
    var run := pipelineRun.value;
    events := api;
    var horizon := LatestApiTime(api, run);
    for i := 0 to |live|
      invariant events == api + NewEvents(live[..i], horizon, run)
    {
      assert live[..i + 1][..i] == live[..i];
      if Accepted(live[i], horizon, run) {
        events := events + [live[i]];
      }
    }
    assert live[..|live|] == live;
    events := Sort(Earlier, events);
  }

  method LatestApiTime(api: seq<Event>, run: PipelineRun) returns (t: int)
    ensures t == Horizon(api, run)
  {
    if api == [] {
      return OrZero(run.startedAt);
    }
    t := OrZero(api[0].at);
    for i := 1 to |api|
      invariant t == Latest(api[..i])
    {
      assert api[..i + 1][..i] == api[..i];
      if t < OrZero(api[i].at) {
        t := OrZero(api[i].at);
      }
    }
    assert api[..|api|] == api;
  }

  // ---- What the merge contains -----------------------------------------------------------

  lemma {:induction false} NewEventsCount(live: seq<Event>, horizon: int, run: PipelineRun, e: Event)
    ensures multiset(NewEvents(live, horizon, run))[e] == if Accepted(e, horizon, run) then multiset(live)[e] else 0
  {
    if live != [] {
      NewEventsCount(live[..|live| - 1], horizon, run, e);
      assert live == live[..|live| - 1] + [live[|live| - 1]];
    }
  }

  // A missing time counts as 0.
  function TimeOf(e: Event): int {
    match e.at case None => 0 case Some(t) => t
  }

  function TimeOfStart(run: PipelineRun): int {
    match run.startedAt case None => 0 case Some(t) => t
  }

  // An event of that run between its start and its end, all times but that of the end being known,
  // and 0 not counting as known.
  ghost predicate DuringRun(e: Event, run: PipelineRun) {
    && e.runId == Some(run.id)
    && e.at != None && e.at != Some(0) && run.startedAt != None && run.startedAt != Some(0)
    && TimeOfStart(run) <= TimeOf(e)
    && (run.endedAt == None || run.endedAt == Some(0) || TimeOf(e) <= run.endedAt.value)
  }

  lemma InWindowIff(e: Event, run: PipelineRun)
    ensures InWindow(e, run) <==> DuringRun(e, run)
  {
  }

  // The accepted live events keep the order they came in.
  lemma {:induction false} NewEventsInOrder(live: seq<Event>, horizon: int, run: PipelineRun) returns (at: seq<nat>)
    ensures |at| == |NewEvents(live, horizon, run)|
    ensures forall i :: 0 <= i < |at| ==> at[i] < |live| && NewEvents(live, horizon, run)[i] == live[at[i]]
    ensures forall i, j :: 0 <= i < j < |at| ==> at[i] < at[j]
  {
    at := [];
    if live != [] {
      var n := |live| - 1;
      at := NewEventsInOrder(live[..n], horizon, run);
      if Accepted(live[n], horizon, run) {
        at := at + [n];
      }
    }
  }

  // Events of one time, in their order.
  function Simultaneous(events: seq<Event>, time: int): seq<Event> {
    if events == [] then []
    else
      var last := events[|events| - 1];
      Simultaneous(events[..|events| - 1], time) + (if TimeOf(last) == time then [last] else [])
  }

  lemma {:induction false} TiesAreSimultaneous(events: seq<Event>, e: Event)
    ensures Ties(Earlier, events, e) == Simultaneous(events, TimeOf(e))
  {
    if events != [] {
      TiesAreSimultaneous(events[..|events| - 1], e);
    }
  }

  // Polled events of one time keep the order they came in, and so do live ones.
  lemma SortKeepsSimultaneous(events: seq<Event>, time: int)
    ensures Simultaneous(Sort(Earlier, events), time) == Simultaneous(events, time)
  {
    var e := Event("", None, Some(time));
    SortIsStable(Earlier, events, e);
    TiesAreSimultaneous(events, e);
    TiesAreSimultaneous(Sort(Earlier, events), e);
  }

  // Every polled event, and of the live ones those of the run's window that are later than all
  // polled ones (with nothing polled: later than the start itself), in order of time.
  lemma MergeContents(api: seq<Event>, live: seq<Event>, run: PipelineRun, e: Event)
    ensures var late := if api == [] then TimeOf(e) > TimeOfStart(run) else forall x :: x in api ==> TimeOf(x) < TimeOf(e);
            multiset(Merged(api, live, run))[e] == multiset(api)[e] + if DuringRun(e, run) && late then multiset(live)[e] else 0
    ensures var m := Merged(api, live, run); forall i, j :: 0 <= i < j < |m| ==> TimeOf(m[i]) <= TimeOf(m[j])
  {
    InWindowIff(e, run);
    var horizon := Horizon(api, run);
    NewEventsCount(live, horizon, run, e);
    SortIsSortedPermutation(Earlier, api + NewEvents(live, horizon, run));
    if api != [] {
      LatestIsMax(api);
    }
    forall i, j | 0 <= i < j < |Merged(api, live, run)|
      ensures TimeOf(Merged(api, live, run)[i]) <= TimeOf(Merged(api, live, run)[j])
    {
      assert !Earlier(Merged(api, live, run)[j], Merged(api, live, run)[i]);
    }
  }

  // Polled events keep their place in front; the live ones follow.
  lemma {:induction false} SortParts(a: seq<Event>, b: seq<Event>)
    requires forall x, y :: x in a && y in b ==> Earlier(x, y)
    ensures Sort(Earlier, a + b) == Sort(Earlier, a) + Sort(Earlier, b)
  {
    if b == [] {
      assert a + b == a;
    } else {
      var front, last := b[..|b| - 1], b[|b| - 1];
      assert (a + b)[..|a + b| - 1] == a + front;
      SortParts(a, front);
      forall i | 0 <= i < |Sort(Earlier, a)| ensures !Earlier(last, Sort(Earlier, a)[i]) {
        SortedElements(Earlier, a, i);
        assert last in b && Earlier(Sort(Earlier, a)[i], last);
      }
      InsertBehind(Sort(Earlier, a), Sort(Earlier, front), last);
    }
  }

  lemma {:induction false} InsertBehind(a: seq<Event>, s: seq<Event>, x: Event)
    requires forall i :: 0 <= i < |a| ==> !Earlier(x, a[i])
    ensures Insert(Earlier, a + s, x) == a + Insert(Earlier, s, x)
  {
    if s == [] {
      assert a + s == a;
    } else if Earlier(x, s[|s| - 1]) {
      assert (a + s)[..|a + s| - 1] == a + s[..|s| - 1];
      InsertBehind(a, s[..|s| - 1], x);
    }
  }

  lemma {:induction false} NewEventsAccepted(live: seq<Event>, horizon: int, run: PipelineRun, e: Event)
    requires e in NewEvents(live, horizon, run)
    ensures Accepted(e, horizon, run) && e in live
  {
    NewEventsCount(live, horizon, run, e);
    assert multiset(NewEvents(live, horizon, run))[e] > 0;
  }

  lemma LiveFollowsPolled(api: seq<Event>, live: seq<Event>, run: PipelineRun)
    ensures Merged(api, live, run) == Sort(Earlier, api) + Sort(Earlier, NewEvents(live, Horizon(api, run), run))
  {
    var more := NewEvents(live, Horizon(api, run), run);
    forall x, y | x in api && y in more ensures Earlier(x, y) {
      NewEventsAccepted(live, Horizon(api, run), run, y);
      LatestIsMax(api);
    }
    SortParts(api, more);
  }

  // ---- Merging again --------------------------------------------------------------------------

  lemma MergedElement(api: seq<Event>, live: seq<Event>, run: PipelineRun, e: Event)
    ensures e in Merged(api, live, run) <==> e in api || e in NewEvents(live, Horizon(api, run), run)
  {
    var all := api + NewEvents(live, Horizon(api, run), run);
    SortIsSortedPermutation(Earlier, all);
    assert e in Merged(api, live, run) <==> multiset(Merged(api, live, run))[e] > 0;
    assert e in all <==> multiset(all)[e] > 0;
  }

  // The horizon of a result: no polled event, no accepted live event is later.
  lemma HorizonMovesOn(api: seq<Event>, live: seq<Event>, run: PipelineRun)
    ensures Horizon(Merged(api, live, run), run) >= Horizon(api, run)
    ensures forall e :: e in NewEvents(live, Horizon(api, run), run) ==> OrZero(e.at) <= Horizon(Merged(api, live, run), run)
  {
    var merged := Merged(api, live, run);
    if merged != [] {
      LatestIsMax(merged);
      forall e | e in NewEvents(live, Horizon(api, run), run) ensures OrZero(e.at) <= Latest(merged) {
        MergedElement(api, live, run, e);
      }
      if api != [] {
        LatestIsMax(api);
        var m :| m in api && OrZero(m.at) == Latest(api);
        MergedElement(api, live, run, m);
      } else {
        var e := merged[0];
        MergedElement(api, live, run, e);
        NewEventsAccepted(live, Horizon(api, run), run, e);
      }
    } else {
      SortIsSortedPermutation(Earlier, api + NewEvents(live, Horizon(api, run), run));
    }
  }

  lemma {:induction false} NothingNew(live: seq<Event>, horizon: int, run: PipelineRun)
    requires forall e :: e in live ==> !Accepted(e, horizon, run)
    ensures NewEvents(live, horizon, run) == []
  {
    if live != [] {
      assert live[|live| - 1] in live;
      NothingNew(live[..|live| - 1], horizon, run);
    }
  }

  // Merging a result with the same live events changes nothing.
  lemma MergeAgainChangesNothing(api: seq<Event>, live: seq<Event>, run: PipelineRun)
    ensures Merged(Merged(api, live, run), live, run) == Merged(api, live, run)
  {
    var merged, horizon := Merged(api, live, run), Horizon(api, run);
    HorizonMovesOn(api, live, run);
    forall e | e in live ensures !Accepted(e, Horizon(merged, run), run) {
      NewEventsCount(live, horizon, run, e);
      assert multiset(live)[e] > 0;
      assert Accepted(e, horizon, run) ==> e in NewEvents(live, horizon, run);
    }
    NothingNew(live, Horizon(merged, run), run);
    SortIsSortedPermutation(Earlier, api + NewEvents(live, horizon, run));
    assert merged + [] == merged;
    SortedIsFixed(Earlier, merged);
  }

  // ---- Merging in batches --------------------------------------------------------------------

  lemma {:induction false} NewEventsOfParts(a: seq<Event>, b: seq<Event>, horizon: int, run: PipelineRun)
    ensures NewEvents(a + b, horizon, run) == NewEvents(a, horizon, run) + NewEvents(b, horizon, run)
  {
    if b == [] {
      assert a + b == a;
    } else {
      assert (a + b)[..|a + b| - 1] == a + b[..|b| - 1];
      NewEventsOfParts(a, b[..|b| - 1], horizon, run);
    }
  }

  // Nothing acceptable in the second batch is overtaken by the first.
  ghost predicate InOrder(api: seq<Event>, first: seq<Event>, second: seq<Event>, run: PipelineRun) {
    forall e :: e in second && Accepted(e, Horizon(api, run), run) ==> OrZero(e.at) > Horizon(Merged(api, first, run), run)
  }

  // Two batches of live events, merged one after the other, give what merging them at once gives
  // exactly then, event by event. An event that arrives late is lost until it is polled.
  lemma BatchesAgreeIff(api: seq<Event>, first: seq<Event>, second: seq<Event>, run: PipelineRun)
    ensures Merged(Merged(api, first, run), second, run) == Merged(api, first + second, run)
            <==> InOrder(api, first, second, run)
    ensures multiset(Merged(Merged(api, first, run), second, run)) == multiset(Merged(api, first + second, run))
            <==> InOrder(api, first, second, run)
  {
    ContentsAgreeIff(api, first, second, run);
    if InOrder(api, first, second, run) {
      InOrderBatchesAgree(api, first, second, run);
    }
  }

  lemma {:induction false} SameAccepted(live: seq<Event>, h: int, later: int, run: PipelineRun)
    requires forall e :: e in live ==> (Accepted(e, h, run) <==> Accepted(e, later, run))
    ensures NewEvents(live, h, run) == NewEvents(live, later, run)
  {
    if live != [] {
      assert live[|live| - 1] in live;
      SameAccepted(live[..|live| - 1], h, later, run);
    }
  }

  lemma MergedIsFixed(api: seq<Event>, live: seq<Event>, run: PipelineRun)
    ensures Sort(Earlier, Merged(api, live, run)) == Merged(api, live, run)
  {
    SortIsSortedPermutation(Earlier, api + NewEvents(live, Horizon(api, run), run));
    SortedIsFixed(Earlier, Merged(api, live, run));
  }

  // In order, the second batch adds what it would add alone, behind what the first added.
  lemma SecondBatch(api: seq<Event>, first: seq<Event>, second: seq<Event>, run: PipelineRun)
    requires InOrder(api, first, second, run)
    ensures var h := Horizon(api, run);
            && NewEvents(second, Horizon(Merged(api, first, run), run), run) == NewEvents(second, h, run)
            && Sort(Earlier, NewEvents(first + second, h, run))
               == Sort(Earlier, NewEvents(first, h, run)) + Sort(Earlier, NewEvents(second, h, run))
  {
    var h, later := Horizon(api, run), Horizon(Merged(api, first, run), run);
    HorizonMovesOn(api, first, run);
    SameAccepted(second, h, later, run);
    NewEventsOfParts(first, second, h, run);
    forall x, y | x in NewEvents(first, h, run) && y in NewEvents(second, h, run) ensures Earlier(x, y) {
      NewEventsAccepted(second, later, run, y);
    }
    SortParts(NewEvents(first, h, run), NewEvents(second, h, run));
  }

  // What one batch contributes, in order.
  function Contribution(live: seq<Event>, horizon: int, run: PipelineRun): seq<Event> {
    Sort(Earlier, NewEvents(live, horizon, run))
  }

  lemma MergedOneByOne(api: seq<Event>, first: seq<Event>, second: seq<Event>, run: PipelineRun)
    requires InOrder(api, first, second, run)
    ensures var h := Horizon(api, run);
            Merged(Merged(api, first, run), second, run)
            == Sort(Earlier, api) + Contribution(first, h, run) + Contribution(second, h, run)
  {
    SecondBatch(api, first, second, run);
    MergedIsFixed(api, first, run);
    LiveFollowsPolled(api, first, run);
    LiveFollowsPolled(Merged(api, first, run), second, run);
  }

  lemma MergedAtOnce(api: seq<Event>, first: seq<Event>, second: seq<Event>, run: PipelineRun)
    requires InOrder(api, first, second, run)
    ensures var h := Horizon(api, run);
            Merged(api, first + second, run)
            == Sort(Earlier, api) + (Contribution(first, h, run) + Contribution(second, h, run))
  {
    SecondBatch(api, first, second, run);
    LiveFollowsPolled(api, first + second, run);
  }

  lemma InOrderBatchesAgree(api: seq<Event>, first: seq<Event>, second: seq<Event>, run: PipelineRun)
    requires InOrder(api, first, second, run)
    ensures Merged(Merged(api, first, run), second, run) == Merged(api, first + second, run)
  {
    MergedOneByOne(api, first, second, run);
    MergedAtOnce(api, first, second, run);
    Regroup(Sort(Earlier, api), Contribution(first, Horizon(api, run), run), Contribution(second, Horizon(api, run), run));
  }

  lemma Regroup(a: seq<Event>, b: seq<Event>, c: seq<Event>)
    ensures (a + b) + c == a + (b + c)
  {
  }

  const RUN: PipelineRun := PipelineRun("r", Some(1), None)
  const EARLY: Event := Event("a", Some("r"), Some(5))
  const LATE: Event := Event("b", Some("r"), Some(3))

  // An event of time 3 merged after one of time 5 is dropped; merged together both are shown.
  lemma LateEventIsDropped()
    ensures LATE !in Merged(Merged([], [EARLY], RUN), [LATE], RUN)
    ensures LATE in Merged([], [EARLY] + [LATE], RUN)
  {
    DroppedAfter();
    AcceptedIsShown([], [EARLY] + [LATE], RUN, LATE);
  }

  lemma AcceptedIsShown(api: seq<Event>, live: seq<Event>, run: PipelineRun, e: Event)
    requires e in live && Accepted(e, Horizon(api, run), run)
    ensures e in Merged(api, live, run)
  {
    NewEventsCount(live, Horizon(api, run), run, e);
    assert multiset(live)[e] > 0;
    MergedElement(api, live, run, e);
  }

  lemma DroppedAfter()
    ensures LATE !in Merged(Merged([], [EARLY], RUN), [LATE], RUN)
  {
    var one := Merged([], [EARLY], RUN);
    HorizonMovesOn([], [EARLY], RUN);
    NewEventsCount([EARLY], 1, RUN, EARLY);
    assert EARLY in [EARLY] && EARLY in NewEvents([EARLY], 1, RUN);
    NothingNew([LATE], Horizon(one, RUN), RUN);
    MergedElement(one, [LATE], RUN, LATE);
    MergedElement([], [EARLY], RUN, LATE);
    NewEventsCount([EARLY], 1, RUN, LATE);
  }

  lemma ContentsAgreeIff(api: seq<Event>, first: seq<Event>, second: seq<Event>, run: PipelineRun)
    ensures multiset(Merged(Merged(api, first, run), second, run)) == multiset(Merged(api, first + second, run))
            <==> InOrder(api, first, second, run)
  {
    var one, horizon := Merged(api, first, run), Horizon(api, run);
    var later := Horizon(one, run);
    HorizonMovesOn(api, first, run);
    var twice, once := Merged(one, second, run), Merged(api, first + second, run);
    forall e ensures multiset(once)[e]
        == multiset(twice)[e] + if Accepted(e, horizon, run) && OrZero(e.at) <= later then multiset(second)[e] else 0
    {
      BatchCounts(api, first, second, run, e);
    }
    if multiset(twice) == multiset(once) {
      forall e | e in second && Accepted(e, horizon, run) ensures OrZero(e.at) > later {
        assert multiset(second)[e] > 0;
        assert multiset(once)[e] == multiset(twice)[e];
      }
    }
    if InOrder(api, first, second, run) {
      forall e ensures multiset(once)[e] == multiset(twice)[e] {
        assert multiset(second)[e] > 0 <==> e in second;
      }
    }
  }

  lemma BatchCounts(api: seq<Event>, first: seq<Event>, second: seq<Event>, run: PipelineRun, e: Event)
    ensures multiset(Merged(api, first + second, run))[e] == multiset(Merged(Merged(api, first, run), second, run))[e]
            + if Accepted(e, Horizon(api, run), run) && OrZero(e.at) <= Horizon(Merged(api, first, run), run)
              then multiset(second)[e] else 0
  {
    var one, horizon := Merged(api, first, run), Horizon(api, run);
    HorizonMovesOn(api, first, run);
    SortIsSortedPermutation(Earlier, api + NewEvents(first, horizon, run));
    SortIsSortedPermutation(Earlier, one + NewEvents(second, Horizon(one, run), run));
    SortIsSortedPermutation(Earlier, api + NewEvents(first + second, horizon, run));
    NewEventsOfParts(first, second, horizon, run);
    NewEventsCount(second, horizon, run, e);
    NewEventsCount(second, Horizon(one, run), run, e);
  }
}
