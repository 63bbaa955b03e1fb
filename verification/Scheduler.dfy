/**
 * The scheduler's consumer loop, interleaved at its suspension points with enqueues and with
 * start and stop. Every call of stop waits for the consumer it found; the first to return
 * forgets the consumer and the stop event, and so does every later one, whatever has been
 * started in between. Cancelling an execution after the stop timeout is not modelled.
 */
module Scheduler {
  import opened Distinctness
  import opened TaskQueue
  import opened StableSorting
  import opened Wrappers
  import OrderedMap

  // A consumer task, at one of its suspension points.
  datatype Consumer =
    | Checking                    // at the loop's condition
    | Fetching                    // awaiting dequeue
    | Dispatching(task: Task)     // has a task, execute not called yet
    | Executing(task: Task)       // awaiting execute
    | Ended                       // left the loop, or failed for want of a stop event

  // The consumer task and the stop event the scheduler holds.
  datatype Control = Control(consumer: nat, stop: bool)

  // waiting: the consumers the pending stop calls wait for. callsSinceStop: the calls of execute
  // since the last start that were made when the stop event was set or gone.
  datatype State = State(queue: Tasks, consumers: seq<Consumer>, control: Option<Control>, waiting: seq<nat>,
                         enqueued: seq<Task>, overwritten: seq<Task>, fetched: seq<Task>,
                         executed: seq<Task>, failed: seq<Task>, calls: seq<Task>, callsSinceStop: nat)

  datatype Action = Enqueue(task: Task) | Start | Stop | StopReturns(w: nat) | Consume(c: nat, ok: bool)

  function Initial(): State {
    State([], [], None, [], [], [], [], [], [], [], 0)
  }

  predicate Running(s: State) {
    s.control.Some? && !s.control.value.stop
  }

  // start raises when a consumer is held, stop returns at once when none is.
  predicate Possible(s: State, a: Action) {
    match a
    case Enqueue(_) => true
    case Start => s.control.None?
    case Stop => s.control.Some?
    case StopReturns(w) => w < |s.waiting| && s.waiting[w] < |s.consumers| && s.consumers[s.waiting[w]].Ended?
    case Consume(c, _) => c < |s.consumers| && !s.consumers[c].Ended?
  }

  // One step; a dequeue takes the first task in queue order (see FindFirst).
  ghost predicate Step(s: State, a: Action, t: State) {
    Possible(s, a) &&
    match a
    case Enqueue(task) =>
      t == s.(queue := OrderedMap.Set(s.queue, task.id, task), enqueued := s.enqueued + [task],
              overwritten := s.overwritten + Overwritten(s.queue, task.id))
    case Start =>
      t == s.(control := Some(Control(|s.consumers|, false)), consumers := s.consumers + [Checking], callsSinceStop := 0)
    case Stop =>
      t == s.(control := Some(s.control.value.(stop := true)), waiting := s.waiting + [s.control.value.consumer])
    case StopReturns(w) => t == s.(control := None, waiting := Without(s.waiting, w))
    case Consume(c, ok) => ConsumerStep(s, c, ok, t)
  }

  // The loop reads whatever stop event the scheduler holds by then; without one it fails.
  ghost predicate ConsumerStep(s: State, c: nat, ok: bool, t: State)
    requires c < |s.consumers|
  {
    match s.consumers[c]
    case Checking => t == At(s, c, if Running(s) then Fetching else Ended)
    case Fetching =>
      if !ok || s.queue == [] then t == At(s, c, Checking)
      else |t.fetched| > 0 && var task := t.fetched[|t.fetched| - 1];
           && DequeuedTask(s.queue, task, t.queue)
           && t == At(s, c, Dispatching(task)).(queue := t.queue, fetched := s.fetched + [task])
    case Dispatching(task) =>
      if task.workItem == None then t == At(s, c, Checking).(failed := s.failed + [task])
      else t == At(s, c, Executing(task)).(calls := s.calls + [task],
                                           callsSinceStop := s.callsSinceStop + (if Running(s) then 0 else 1))
    case Executing(task) =>
      if ok then t == At(s, c, Checking).(executed := s.executed + [task])
      else t == At(s, c, Checking).(failed := s.failed + [task])
    case Ended => t == s
  }

  function At(s: State, c: nat, consumer: Consumer): State
    requires c < |s.consumers|
  {
    s.(consumers := s.consumers[c := consumer])
  }

  // ---- Where the tasks are --------------------------------------------------------

  function Count(s: seq<Task>, x: Task): nat {
    multiset(s)[x]
  }

  // What a consumer counts for: a task it has in hand, a task it executes, a call of execute that
  // may be on the way.
  datatype Measure = Hand(task: Task) | Execution(task: Task) | Way

  function Worth(c: Consumer, m: Measure): nat {
    match m
    case Hand(x) => if (c.Dispatching? || c.Executing?) && c.task == x then 1 else 0
    case Execution(x) => if c.Executing? && c.task == x then 1 else 0
    case Way => if c.Fetching? || c.Dispatching? then 1 else 0
  }

  function Total(consumers: seq<Consumer>, m: Measure): nat {
    if consumers == [] then 0 else Total(consumers[..|consumers| - 1], m) + Worth(consumers[|consumers| - 1], m)
  }

  lemma {:induction false} TotalAfterUpdate(consumers: seq<Consumer>, c: nat, after: Consumer, m: Measure)
    requires c < |consumers|
    ensures Total(consumers[c := after], m) == Total(consumers, m) - Worth(consumers[c], m) + Worth(after, m)
  {
    var n := |consumers| - 1;
    if c < n {
      assert consumers[c := after][..n] == consumers[..n][c := after];
      TotalAfterUpdate(consumers[..n], c, after, m);
    } else {
      assert consumers[c := after][..n] == consumers[..n];
    }
  }

  lemma TotalOneMore(consumers: seq<Consumer>, c: Consumer, m: Measure)
    ensures Total(consumers + [c], m) == Total(consumers, m) + Worth(c, m)
  {
    assert (consumers + [c])[..|consumers|] == consumers;
  }

  lemma {:induction false} CallsBound(consumers: seq<Consumer>)
    ensures Total(consumers, Way) <= |consumers|
  {
    if consumers != [] {
      CallsBound(consumers[..|consumers| - 1]);
    }
  }

  lemma {:induction false} ExecutedIsInHand(consumers: seq<Consumer>, x: Task)
    ensures Total(consumers, Execution(x)) <= Total(consumers, Hand(x))
  {
    if consumers != [] {
      ExecutedIsInHand(consumers[..|consumers| - 1], x);
    }
  }

  // Every enqueued task is waiting, in some consumer's hand, executed, failed or overwritten: once each.
  ghost predicate Placed(s: State, x: Task) {
    && Count(s.enqueued, x) == Count(Values(s.queue), x) + Total(s.consumers, Hand(x))
                             + Count(s.executed, x) + Count(s.failed, x) + Count(s.overwritten, x)
    && Count(s.calls, x) <= Count(s.executed, x) + Count(s.failed, x) + Total(s.consumers, Execution(x))
  }

  function IdOf(t: Task): string {
    t.id
  }

  ghost predicate Invariant(s: State) {
    && ByOwnId(s.queue)
    && (forall x :: Placed(s, x))
    && (forall i :: 0 <= i < |s.queue| ==> s.queue[i].1 in s.enqueued)
    && (DistinctBy(s.enqueued, IdOf) ==> s.overwritten == [])
    && (s.control.Some? ==> s.control.value.consumer < |s.consumers|)
    && (forall w :: 0 <= w < |s.waiting| ==> s.waiting[w] < |s.consumers|)
    && s.callsSinceStop + Total(s.consumers, Way) <= |s.consumers|
    && (Running(s) ==> s.callsSinceStop == 0)
  }

  lemma CountConcat(a: seq<Task>, b: seq<Task>, x: Task)
    ensures Count(a + b, x) == Count(a, x) + Count(b, x)
  {
    assert multiset(a + b) == multiset(a) + multiset(b);
  }

  lemma EnqueuePlaces(queue: Tasks, task: Task, x: Task)
    requires ByOwnId(queue)
    ensures Count(Values(OrderedMap.Set(queue, task.id, task)), x) + Count(Overwritten(queue, task.id), x)
         == Count(Values(queue), x) + Count([task], x)
  {
    var i := SetCases(queue, task);
    var v, r := Values(queue), Values(OrderedMap.Set(queue, task.id, task));
    if i < |queue| {
      assert r == v[i := task];
      CountWithout(v, i, x);
      CountWithout(r, i, x);
      assert Without(r, i) == Without(v, i);
    } else {
      assert r == v + [task];
      CountConcat(v, [task], x);
    }
  }

  lemma CountWithout(v: seq<Task>, i: nat, x: Task)
    requires i < |v|
    ensures Count(v, x) == Count(Without(v, i), x) + Count([v[i]], x)
  {
    assert v == v[..i] + ([v[i]] + v[i + 1..]);
    CountConcat(v[..i], [v[i]] + v[i + 1..], x);
    CountConcat([v[i]], v[i + 1..], x);
    CountConcat(v[..i], v[i + 1..], x);
  }

  lemma EnqueueKeepsPlaces(s: State, task: Task, t: State, x: Task)
    requires ByOwnId(s.queue) && Placed(s, x) && Step(s, Enqueue(task), t)
    ensures Placed(t, x)
  {
    EnqueuePlaces(s.queue, task, x);
    CountConcat(s.enqueued, [task], x);
    CountConcat(s.overwritten, Overwritten(s.queue, task.id), x);
  }

  // A new id overwrites nothing.
  lemma NewIdsOverwriteNothing(s: State, task: Task)
    requires forall i :: 0 <= i < |s.queue| ==> s.queue[i].1 in s.enqueued
    requires ByOwnId(s.queue) && DistinctBy(s.enqueued + [task], IdOf)
    ensures DistinctBy(s.enqueued, IdOf) && Overwritten(s.queue, task.id) == []
  {
    var all := s.enqueued + [task];
    assert forall j :: 0 <= j < |s.enqueued| ==> all[j] == s.enqueued[j];
    forall k | 0 <= k < |s.queue| ensures s.queue[k].0 != task.id {
      assert s.queue[k].1 in s.enqueued;
      var j :| 0 <= j < |s.enqueued| && s.enqueued[j] == s.queue[k].1;
      assert all[j].id != all[|s.enqueued|].id;
    }
    var i := SetCases(s.queue, task);
  }

  lemma EnqueuedListed(s: State, task: Task, t: State)
    requires forall i :: 0 <= i < |s.queue| ==> s.queue[i].1 in s.enqueued
    requires Step(s, Enqueue(task), t)
    ensures forall i :: 0 <= i < |t.queue| ==> t.queue[i].1 in t.enqueued
  {
    var k := SetCases(s.queue, task);
    assert task in t.enqueued;
    forall i | 0 <= i < |t.queue| ensures t.queue[i].1 in t.enqueued {
      assert i < |s.queue| ==> s.queue[i].1 in s.enqueued;
    }
  }

  lemma EnqueueKeepsInvariant(s: State, task: Task, t: State)
    requires Invariant(s) && Step(s, Enqueue(task), t)
    ensures Invariant(t)
  {
    SetKeepsIds(s.queue, task);
    EnqueuedListed(s, task, t);
    forall x ensures Placed(t, x) {
      assert Placed(s, x);
      EnqueueKeepsPlaces(s, task, t, x);
    }
    if DistinctBy(t.enqueued, IdOf) {
      NewIdsOverwriteNothing(s, task);
    }
  }

  // Nothing the consumers hold or do changes where a task is if their hands stay as they were.
  lemma SameHands(s: State, t: State, x: Task)
    requires Placed(s, x) && Total(t.consumers, Hand(x)) == Total(s.consumers, Hand(x)) && Total(t.consumers, Execution(x)) == Total(s.consumers, Execution(x))
    requires t.queue == s.queue && t.enqueued == s.enqueued && t.overwritten == s.overwritten
    requires t.executed == s.executed && t.failed == s.failed && t.calls == s.calls
    ensures Placed(t, x)
  {
  }

  // What moving one consumer on does to the totals.
  lemma Moved(s: State, c: nat, after: Consumer, x: Task)
    requires c < |s.consumers|
    ensures Total(At(s, c, after).consumers, Hand(x)) == Total(s.consumers, Hand(x)) - Worth(s.consumers[c], Hand(x)) + Worth(after, Hand(x))
    ensures Total(At(s, c, after).consumers, Execution(x))
            == Total(s.consumers, Execution(x)) - Worth(s.consumers[c], Execution(x)) + Worth(after, Execution(x))
  {
    TotalAfterUpdate(s.consumers, c, after, Hand(x));
    TotalAfterUpdate(s.consumers, c, after, Execution(x));
  }

  // Fetching takes the m-th entry out of the queue and into the consumer's hand.
  function Fetched(s: State, c: nat, m: nat): State
    requires m < |s.queue| && c < |s.consumers|
  {
    At(s, c, Dispatching(s.queue[m].1)).(queue := Without(s.queue, m), fetched := s.fetched + [s.queue[m].1])
  }

  lemma FetchPlaces(s: State, c: nat, m: nat, x: Task)
    requires m < |s.queue| && c < |s.consumers| && s.consumers[c].Fetching? && Placed(s, x)
    ensures Placed(Fetched(s, c, m), x)
  {
    CountWithout(Values(s.queue), m, x);
    assert Values(Without(s.queue, m)) == Without(Values(s.queue), m);
    Moved(s, c, Dispatching(s.queue[m].1), x);
  }

  lemma FetchIsSome(s: State, c: nat, t: State) returns (m: nat)
    requires Step(s, Consume(c, true), t) && s.consumers[c].Fetching? && s.queue != []
    ensures m < |s.queue| && IsFirst(Before, Values(s.queue), m) && t == Fetched(s, c, m)
  {
    var task := t.fetched[|t.fetched| - 1];
    m :| m < |s.queue| && IsFirst(Before, Values(s.queue), m) && task == s.queue[m].1 && t.queue == Without(s.queue, m);
  }

  lemma FetchKeepsInvariant(s: State, c: nat, m: nat)
    requires Invariant(s) && m < |s.queue| && c < |s.consumers| && s.consumers[c].Fetching?
    ensures Invariant(Fetched(s, c, m))
  {
    WithoutKeepsIds(s.queue, m);
    forall x ensures Placed(Fetched(s, c, m), x) {
      assert Placed(s, x);
      FetchPlaces(s, c, m, x);
    }
    TotalAfterUpdate(s.consumers, c, Dispatching(s.queue[m].1), Way);
  }

  // A task without work item is given up, any other executed.
  lemma GivenUpPlaces(s: State, c: nat, x: Task)
    requires Placed(s, x) && c < |s.consumers| && s.consumers[c].Dispatching?
    ensures Placed(At(s, c, Checking).(failed := s.failed + [s.consumers[c].task]), x)
  {
    Moved(s, c, Checking, x);
    CountConcat(s.failed, [s.consumers[c].task], x);
  }

  lemma CalledPlaces(s: State, c: nat, n: nat, x: Task)
    requires Placed(s, x) && c < |s.consumers| && s.consumers[c].Dispatching?
    ensures var task := s.consumers[c].task;
            Placed(At(s, c, Executing(task)).(calls := s.calls + [task], callsSinceStop := n), x)
  {
    Moved(s, c, Executing(s.consumers[c].task), x);
    CountConcat(s.calls, [s.consumers[c].task], x);
  }

  lemma ExecutionPlaces(s: State, c: nat, x: Task)
    requires Placed(s, x) && c < |s.consumers| && s.consumers[c].Executing?
    ensures Placed(At(s, c, Checking).(executed := s.executed + [s.consumers[c].task]), x)
    ensures Placed(At(s, c, Checking).(failed := s.failed + [s.consumers[c].task]), x)
  {
    Moved(s, c, Checking, x);
    CountConcat(s.failed, [s.consumers[c].task], x);
    CountConcat(s.executed, [s.consumers[c].task], x);
  }

  lemma EmptyHandsPlaces(s: State, c: nat, after: Consumer, x: Task)
    requires Placed(s, x) && c < |s.consumers|
    requires s.consumers[c].Checking? || s.consumers[c].Fetching?
    requires after.Checking? || after.Fetching? || after.Ended?
    ensures Placed(At(s, c, after), x)
  {
    Moved(s, c, after, x);
    SameHands(s, At(s, c, after), x);
  }

  // Not taking a task off the queue.
  predicate LeavesQueue(s: State, c: nat, ok: bool)
    requires c < |s.consumers|
  {
    !(s.consumers[c].Fetching? && ok && s.queue != [])
  }

  lemma ConsumePlaces(s: State, c: nat, ok: bool, t: State, x: Task)
    requires Placed(s, x) && Step(s, Consume(c, ok), t) && LeavesQueue(s, c, ok)
    ensures Placed(t, x)
  {
    match s.consumers[c]
    case Dispatching(_) =>
      GivenUpPlaces(s, c, x);
      CalledPlaces(s, c, t.callsSinceStop, x);
    case Executing(_) => ExecutionPlaces(s, c, x);
    case Checking => EmptyHandsPlaces(s, c, if Running(s) then Fetching else Ended, x);
    case Fetching => EmptyHandsPlaces(s, c, Checking, x);
  }

  lemma ConsumeKeepsRest(s: State, c: nat, ok: bool, t: State)
    requires Step(s, Consume(c, ok), t) && LeavesQueue(s, c, ok)
    ensures t.queue == s.queue && t.enqueued == s.enqueued && t.overwritten == s.overwritten
    ensures t.control == s.control && t.waiting == s.waiting && t.consumers == s.consumers[c := t.consumers[c]]
    ensures t.callsSinceStop + Worth(t.consumers[c], Way)
            <= s.callsSinceStop + Worth(s.consumers[c], Way) + (if Running(s) then 1 else 0)
    ensures Running(s) ==> t.callsSinceStop == s.callsSinceStop
  {
  }

  // While the stop event is neither set nor gone no call is counted; afterwards a call uses up
  // what was on the way.
  lemma ConsumeKeepsCalls(s: State, c: nat, ok: bool, t: State)
    requires Step(s, Consume(c, ok), t) && LeavesQueue(s, c, ok)
    requires s.callsSinceStop + Total(s.consumers, Way) <= |s.consumers| && (Running(s) ==> s.callsSinceStop == 0)
    ensures t.callsSinceStop + Total(t.consumers, Way) <= |t.consumers| && (Running(t) ==> t.callsSinceStop == 0)
  {
    ConsumeKeepsRest(s, c, ok, t);
    TotalAfterUpdate(s.consumers, c, t.consumers[c], Way);
    CallsBound(t.consumers);
  }

  lemma ConsumeKeepsInvariant(s: State, c: nat, ok: bool, t: State)
    requires Invariant(s) && Step(s, Consume(c, ok), t)
    ensures Invariant(t)
  {
    if LeavesQueue(s, c, ok) {
      forall x ensures Placed(t, x) {
        assert Placed(s, x);
        ConsumePlaces(s, c, ok, t, x);
      }
      ConsumeKeepsRest(s, c, ok, t);
      ConsumeKeepsCalls(s, c, ok, t);
    } else {
      var m := FetchIsSome(s, c, t);
      FetchKeepsInvariant(s, c, m);
    }
  }

  lemma StartKeepsInvariant(s: State, t: State)
    requires Invariant(s) && Step(s, Start, t)
    ensures Invariant(t)
  {
    CallsBound(t.consumers);
    forall x ensures Placed(t, x) {
      assert Placed(s, x);
      TotalOneMore(s.consumers, Checking, Hand(x));
      TotalOneMore(s.consumers, Checking, Execution(x));
      SameHands(s, t, x);
    }
  }

  lemma StepKeepsInvariant(s: State, a: Action, t: State)
    requires Invariant(s) && Step(s, a, t)
    ensures Invariant(t)
  {
    match a
    case Enqueue(task) => EnqueueKeepsInvariant(s, task, t);
    case Start => StartKeepsInvariant(s, t);
    case Consume(c, ok) => ConsumeKeepsInvariant(s, c, ok, t);
    case _ =>
      forall x ensures Placed(t, x) {
        assert Placed(s, x);
        SameHands(s, t, x);
      }
  }

  // ---- Whole runs -------------------------------------------------------------------

  ghost predicate IsRun(run: seq<State>, actions: seq<Action>) {
    && |run| == |actions| + 1 && run[0] == Initial()
    && forall k :: 0 <= k < |actions| ==> Step(run[k], actions[k], run[k + 1])
  }

  lemma Shorter(run: seq<State>, actions: seq<Action>)
    requires IsRun(run, actions) && actions != []
    ensures var n := |actions|; IsRun(run[..n], actions[..n - 1]) && Step(run[n - 1], actions[n - 1], run[n])
  {
    var n := |actions|;
    forall k | 0 <= k < n - 1 ensures Step(run[..n][k], actions[..n - 1][k], run[..n][k + 1]) {
      assert Step(run[k], actions[k], run[k + 1]);
    }
    assert Step(run[n - 1], actions[n - 1], run[n - 1 + 1]);
  }

  lemma {:induction false} RunInvariant(run: seq<State>, actions: seq<Action>)
    requires IsRun(run, actions)
    ensures Invariant(run[|actions|])
  {
    var n := |actions|;
    if n > 0 {
      Shorter(run, actions);
      RunInvariant(run[..n], actions[..n - 1]);
      StepKeepsInvariant(run[n - 1], actions[n - 1], run[n]);
    }
  }

  lemma {:induction false} DistinctMeansOnce(tasks: seq<Task>, x: Task)
    requires DistinctBy(tasks, IdOf)
    ensures Count(tasks, x) <= 1
  {
    if tasks != [] {
      var front, last := tasks[..|tasks| - 1], tasks[|tasks| - 1];
      assert tasks == front + [last];
      DistinctMeansOnce(front, x);
      CountConcat(front, [last], x);
      if x in front {
        var i :| 0 <= i < |front| && front[i] == x;
        assert tasks[i].id != tasks[|front|].id;
      }
    }
  }

  // With distinct ids, at any moment of any run, each enqueued task is in exactly one place and
  // execute has been called for it at most once; nothing else was ever executed.
  lemma EveryTaskInOnePlace(run: seq<State>, actions: seq<Action>, x: Task)
    requires IsRun(run, actions) && DistinctBy(run[|actions|].enqueued, IdOf)
    ensures var s := run[|actions|];
      && Count(Values(s.queue), x) + Total(s.consumers, Hand(x)) + Count(s.executed, x) + Count(s.failed, x)
         == (if x in s.enqueued then 1 else 0)
      && Count(s.calls, x) <= (if x in s.enqueued then 1 else 0)
  {
    RunInvariant(run, actions);
    var s := run[|actions|];
    assert Placed(s, x);
    DistinctMeansOnce(s.enqueued, x);
    ExecutedIsInHand(s.consumers, x);
  }
}
