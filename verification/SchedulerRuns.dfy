/** Whole runs of the scheduler: how many consumers are at work, and in which order tasks leave the queue. */
module SchedulerRuns {
  import opened Scheduler
  import opened TaskQueue
  import opened StableSorting
  import opened Wrappers
  import OrderedMap

  // However stop and start overlap, a consumer makes at most one call once the stop event is set
  // or gone.
  lemma CallsAfterStopBounded(run: seq<State>, actions: seq<Action>)
    requires IsRun(run, actions)
    ensures var s := run[|actions|]; s.callsSinceStop <= |s.consumers|
  {
    RunInvariant(run, actions);
  }

  // ---- Stops that do not overlap ----------------------------------------------------------

  // A stop that returns when another consumer has been started than the one it waited for.
  predicate Stray(s: State, a: Action) {
    a.StopReturns? && a.w < |s.waiting| && s.control.Some? && s.control.value.consumer != s.waiting[a.w]
  }

  ghost predicate NoStray(run: seq<State>, actions: seq<Action>)
    requires |run| == |actions| + 1
  {
    forall k :: 0 <= k < |actions| ==> !Stray(run[k], actions[k])
  }

  // The tasks that can be executed.
  function WithWork(tasks: seq<Task>): seq<Task> {
    if tasks == [] then []
    else WithWork(tasks[..|tasks| - 1]) + (if tasks[|tasks| - 1].workItem == None then [] else [tasks[|tasks| - 1]])
  }

  lemma WithWorkOneMore(tasks: seq<Task>, task: Task)
    ensures WithWork(tasks + [task]) == WithWork(tasks) + (if task.workItem == None then [] else [task])
  {
    assert (tasks + [task])[..|tasks|] == tasks;
  }

  // Only the consumer the scheduler holds is alive, and one call at most is left to it once
  // stopped.
  ghost predicate Solo(s: State) {
    && (s.control.Some? ==> s.control.value.consumer < |s.consumers|)
    && (forall c :: 0 <= c < |s.consumers| && !s.consumers[c].Ended? ==> s.control.Some? && s.control.value.consumer == c)
    && s.callsSinceStop + StillToCall(s) <= 1 && (Running(s) ==> s.callsSinceStop == 0)
  }

  function StillToCall(s: State): nat {
    if s.control.Some? && s.control.value.stop && s.control.value.consumer < |s.consumers|
    then Worth(s.consumers[s.control.value.consumer], Way) else 0
  }

  // What the consumer has in hand and not yet decided on.
  function Undecided(s: State): seq<Task> {
    if s.control.Some? && s.control.value.consumer < |s.consumers| && s.consumers[s.control.value.consumer].Dispatching?
    then [s.consumers[s.control.value.consumer].task] else []
  }

  // Execute has been called for all fetched tasks that have a work item, in the order fetched, but
  // for the one still undecided.
  ghost predicate CallsInOrder(s: State) {
    && (s.consumers == [] ==> s.fetched == [])
    && exists done :: s.fetched == done + Undecided(s) && s.calls == WithWork(done)
  }

  lemma ConsumeKeepsSolo(s: State, c: nat, ok: bool, t: State)
    requires Solo(s) && Step(s, Consume(c, ok), t)
    ensures Solo(t)
  {
    assert s.control.Some? && s.control.value.consumer == c;
    assert t.control == s.control && |t.consumers| == |s.consumers|;
    assert forall d :: 0 <= d < |s.consumers| && d != c ==> t.consumers[d] == s.consumers[d];
  }

  lemma StepKeepsSolo(s: State, a: Action, t: State)
    requires Solo(s) && Step(s, a, t) && !Stray(s, a)
    ensures Solo(t)
  {
    if a.Consume? {
      ConsumeKeepsSolo(s, a.c, a.ok, t);
    }
  }

  lemma FetchKeepsOrder(s: State, c: nat, t: State, done: seq<Task>)
    requires Solo(s) && Step(s, Consume(c, true), t) && s.consumers[c].Fetching? && s.queue != []
    requires s.fetched == done + Undecided(s) && s.calls == WithWork(done)
    ensures CallsInOrder(t)
  {
    var m := FetchIsSome(s, c, t);
    assert t.fetched == done + Undecided(t);
  }

  lemma DispatchKeepsOrder(s: State, c: nat, ok: bool, t: State, done: seq<Task>)
    requires Solo(s) && Step(s, Consume(c, ok), t) && s.consumers[c].Dispatching?
    requires s.fetched == done + Undecided(s) && s.calls == WithWork(done)
    ensures CallsInOrder(t)
  {
    WithWorkOneMore(done, s.consumers[c].task);
    assert t.fetched == (done + [s.consumers[c].task]) + Undecided(t);
  }

  lemma StepKeepsOrder(s: State, a: Action, t: State)
    requires Solo(s) && CallsInOrder(s) && Step(s, a, t) && !Stray(s, a)
    ensures CallsInOrder(t)
  {
    var done :| s.fetched == done + Undecided(s) && s.calls == WithWork(done);
    if a.Consume? && s.consumers[a.c].Dispatching? {
      DispatchKeepsOrder(s, a.c, a.ok, t, done);
    } else if a.Consume? && !LeavesQueue(s, a.c, a.ok) {
      FetchKeepsOrder(s, a.c, t, done);
    } else {
      assert Undecided(t) == Undecided(s);
    }
  }

  lemma {:induction false} RunIsSolo(run: seq<State>, actions: seq<Action>)
    requires IsRun(run, actions) && NoStray(run, actions)
    ensures Solo(run[|actions|]) && CallsInOrder(run[|actions|])
  {
    var n := |actions|;
    if n == 0 {
      assert run[0].fetched == [] + Undecided(run[0]) && run[0].calls == WithWork([]);
    } else {
      Shorter(run, actions);
      assert NoStray(run[..n], actions[..n - 1]) by {
        forall k | 0 <= k < n - 1 ensures !Stray(run[..n][k], actions[..n - 1][k]) {
          assert !Stray(run[k], actions[k]);
        }
      }
      RunIsSolo(run[..n], actions[..n - 1]);
      StepKeepsSolo(run[n - 1], actions[n - 1], run[n]);
      StepKeepsOrder(run[n - 1], actions[n - 1], run[n]);
    }
  }

  // If no stop returns late, one consumer is alive at a time, and once stop is signalled at most one
  // more execution begins before the next start.
  lemma AtMostOneDispatchAfterStop(run: seq<State>, actions: seq<Action>)
    requires IsRun(run, actions) && NoStray(run, actions)
    ensures var s := run[|actions|];
      && s.callsSinceStop <= 1
      && forall c, d :: 0 <= c < d < |s.consumers| ==> s.consumers[c].Ended? || s.consumers[d].Ended?
  {
    RunIsSolo(run, actions);
  }

  // ---- The order of the queue ------------------------------------------------------------------

  // What has been fetched, and what is still to come, in queue order.
  function Coming(s: State): seq<Task> {
    s.fetched + Sort(Before, Values(s.queue))
  }

  lemma FetchKeepsComing(s: State, c: nat, m: nat)
    requires c < |s.consumers| && m < |s.queue| && IsFirst(Before, Values(s.queue), m)
    ensures Coming(Fetched(s, c, m)) == Coming(s)
  {
    var task, rest := s.queue[m].1, Without(s.queue, m);
    assert DequeuedTask(s.queue, task, rest);
    DequeueIsHeadOfSort(s.queue, task, rest);
    Regroup(s.fetched, task, Sort(Before, Values(rest)));
  }

  lemma Regroup(a: seq<Task>, x: Task, b: seq<Task>)
    ensures (a + [x]) + b == a + ([x] + b)
  {
  }

  lemma OtherStepsKeepQueue(s: State, a: Action, t: State)
    requires Step(s, a, t) && !a.Enqueue? && (a.Consume? ==> LeavesQueue(s, a.c, a.ok))
    ensures t.fetched == s.fetched && t.queue == s.queue
  {
  }

  // It changes with enqueues only.
  lemma StepKeepsComing(s: State, a: Action, t: State)
    requires Step(s, a, t) && !a.Enqueue?
    ensures Coming(t) == Coming(s)
  {
    if a.Consume? && !LeavesQueue(s, a.c, a.ok) {
      var m := FetchIsSome(s, a.c, t);
      FetchKeepsComing(s, a.c, m);
    } else {
      OtherStepsKeepQueue(s, a, t);
    }
  }

  // With no enqueue after moment i, whatever is fetched from then on is fetched in the order of the
  // stable sort of the queue at i, however many consumers are at work.
  lemma {:induction false} FetchedInQueueOrder(run: seq<State>, actions: seq<Action>, i: nat, j: nat)
    requires IsRun(run, actions) && i <= j <= |actions|
    requires forall k :: i <= k < j ==> !actions[k].Enqueue?
    ensures Coming(run[j]) == Coming(run[i])
    decreases j
  {
    if i < j {
      FetchedInQueueOrder(run, actions, i, j - 1);
      assert Step(run[j - 1], actions[j - 1], run[j - 1 + 1]);
      StepKeepsComing(run[j - 1], actions[j - 1], run[j]);
    }
  }

  lemma {:induction false} NothingFetchedYet(run: seq<State>, actions: seq<Action>, i: nat)
    requires IsRun(run, actions) && i <= |actions| && run[i].consumers == []
    ensures run[i].fetched == []
    decreases i
  {
    if i > 0 {
      assert Step(run[i - 1], actions[i - 1], run[i - 1 + 1]);
      NothingFetchedYet(run, actions, i - 1);
    }
  }

  lemma FrontOf(done: seq<Task>, undecided: seq<Task>, rest: seq<Task>)
    ensures ((done + undecided) + rest)[..|done|] == done
  {
  }

  // With all enqueues before the first start, and no stop returning late, execute is called for the
  // tasks with a work item among the first n of the stable sort that draining the queue would give.
  lemma CallsFollowQueueOrder(run: seq<State>, actions: seq<Action>, i: nat) returns (n: nat)
    requires IsRun(run, actions) && NoStray(run, actions) && i <= |actions| && run[i].consumers == []
    requires forall k :: i <= k < |actions| ==> !actions[k].Enqueue?
    ensures n <= |Sort(Before, Values(run[i].queue))|
    ensures run[|actions|].calls == WithWork(Sort(Before, Values(run[i].queue))[..n])
    ensures var calls := run[|actions|].calls;
      && (forall k :: 0 <= k < |calls| ==> calls[k].workItem != None && calls[k] in Values(run[i].queue))
      && (forall j, k :: 0 <= j < k < |calls| ==>
            calls[j].priority > calls[k].priority
            || (calls[j].priority == calls[k].priority && calls[j].createdAt <= calls[k].createdAt))
  {
    var s := run[|actions|];
    RunIsSolo(run, actions);
    NothingFetchedYet(run, actions, i);
    FetchedInQueueOrder(run, actions, i, |actions|);
    assert Coming(run[i]) == Sort(Before, Values(run[i].queue));
    n := DoneIsFront(s);
    CallsAreRanked(Values(run[i].queue), n);
  }

  lemma CallsAreRanked(tasks: seq<Task>, n: nat)
    requires n <= |Sort(Before, tasks)|
    ensures var calls := WithWork(Sort(Before, tasks)[..n]);
      && (forall k :: 0 <= k < |calls| ==> calls[k].workItem != None && calls[k] in tasks)
      && (forall j, k :: 0 <= j < k < |calls| ==>
            calls[j].priority > calls[k].priority
            || (calls[j].priority == calls[k].priority && calls[j].createdAt <= calls[k].createdAt))
  {
    var d := Sort(Before, tasks);
    QueueOrder(tasks);
    var at := WithWorkKeepsOrder(d[..n]);
    forall k | 0 <= k < |at| ensures d[at[k]] in tasks {
      SortedElements(Before, tasks, at[k]);
    }
  }

  // Where in the list the tasks with a work item stand.
  lemma {:induction false} WithWorkKeepsOrder(tasks: seq<Task>) returns (at: seq<nat>)
    ensures |at| == |WithWork(tasks)|
    ensures forall k :: 0 <= k < |at| ==> at[k] < |tasks| && WithWork(tasks)[k] == tasks[at[k]]
                                          && tasks[at[k]].workItem != None
    ensures forall j, k :: 0 <= j < k < |at| ==> at[j] < at[k]
  {
    at := [];
    if tasks != [] {
      at := WithWorkKeepsOrder(tasks[..|tasks| - 1]);
      if tasks[|tasks| - 1].workItem != None {
        at := at + [|tasks| - 1];
      }
    }
  }

  lemma DoneIsFront(s: State) returns (n: nat)
    requires CallsInOrder(s)
    ensures n <= |Coming(s)| && s.calls == WithWork(Coming(s)[..n])
  {
    var done :| s.fetched == done + Undecided(s) && s.calls == WithWork(done);
    FrontOf(done, Undecided(s), Sort(Before, Values(s.queue)));
    n := |done|;
  }

  // ---- What becomes of a call ---------------------------------------------------------------

  // Step k lets a call of execute for the task return, or raise.
  ghost predicate Completes(run: seq<State>, actions: seq<Action>, k: nat, x: Task, ok: bool)
    requires k < |actions| && |run| == |actions| + 1
  {
    var a := actions[k];
    a.Consume? && a.ok == ok && a.c < |run[k].consumers| && run[k].consumers[a.c] == Executing(x)
  }

  // Step k gives the task up because it has no work item.
  ghost predicate GivesUp(run: seq<State>, actions: seq<Action>, k: nat, x: Task)
    requires k < |actions| && |run| == |actions| + 1
  {
    var a := actions[k];
    a.Consume? && a.c < |run[k].consumers| && run[k].consumers[a.c] == Dispatching(x) && x.workItem == None
  }

  ghost function Successes(run: seq<State>, actions: seq<Action>, n: nat, x: Task): nat
    requires n <= |actions| && |run| == |actions| + 1
  {
    if n == 0 then 0 else Successes(run, actions, n - 1, x) + (if Completes(run, actions, n - 1, x, true) then 1 else 0)
  }

  ghost function Failures(run: seq<State>, actions: seq<Action>, n: nat, x: Task): nat
    requires n <= |actions| && |run| == |actions| + 1
  {
    if n == 0 then 0
    else Failures(run, actions, n - 1, x)
         + (if Completes(run, actions, n - 1, x, false) || GivesUp(run, actions, n - 1, x) then 1 else 0)
  }

  lemma StepCompletes(s: State, a: Action, t: State, x: Task)
    requires Step(s, a, t)
    ensures Count(t.executed, x) == Count(s.executed, x)
            + (if a.Consume? && a.ok && s.consumers[a.c] == Executing(x) then 1 else 0)
    ensures Count(t.failed, x) == Count(s.failed, x)
            + (if a.Consume? && ((!a.ok && s.consumers[a.c] == Executing(x)) || (s.consumers[a.c] == Dispatching(x) && x.workItem == None))
               then 1 else 0)
  {
  }

  // A task is executed as often as a call for it has returned, and failed as often as one has
  // raised or a consumer has given it up.
  lemma {:induction false} OutcomesAreCounted(run: seq<State>, actions: seq<Action>, n: nat, x: Task)
    requires IsRun(run, actions) && n <= |actions|
    ensures Count(run[n].executed, x) == Successes(run, actions, n, x)
    ensures Count(run[n].failed, x) == Failures(run, actions, n, x)
  {
    if n > 0 {
      OutcomesAreCounted(run, actions, n - 1, x);
      assert Step(run[n - 1], actions[n - 1], run[n - 1 + 1]);
      StepCompletes(run[n - 1], actions[n - 1], run[n], x);
    }
  }

  // A consumer leaves the loop only at its condition, and then exactly when the stop event is set
  // or gone.
  lemma LeavesWhenStopped(s: State, c: nat, ok: bool, t: State)
    requires Step(s, Consume(c, ok), t)
    ensures c < |t.consumers| && (t.consumers[c].Ended? <==>
              s.consumers[c].Checking? && (s.control.None? || s.control.value.stop))
  {
  }

  // ---- Stops that do overlap -----------------------------------------------------------------

  lemma Extend(run: seq<State>, actions: seq<Action>, a: Action, t: State) returns (run': seq<State>, actions': seq<Action>)
    requires IsRun(run, actions) && Step(run[|actions|], a, t)
    ensures IsRun(run', actions') && run'[|actions'|] == t && actions' == actions + [a]
  {
    run', actions' := run + [t], actions + [a];
    forall k | 0 <= k < |actions'| ensures Step(run'[k], actions'[k], run'[k + 1]) {
      if k < |actions| {
        assert Step(run[k], actions[k], run[k + 1]);
      }
    }
  }

  // Two stops wait for the first consumer. The first returns, a second consumer is started, and the
  // other stop makes the scheduler forget it, so that a third can be started beside it.
  lemma TwoConsumersCanBeAlive() returns (run: seq<State>, actions: seq<Action>)
    ensures IsRun(run, actions)
    ensures var s := run[|actions|];
      s == State([], [Ended, Checking, Checking], Some(Control(2, false)), [], [], [], [], [], [], [], 0)
  {
    run, actions := [Initial()], [];
    var s := Initial().(control := Some(Control(0, false)), consumers := [Checking]);
    run, actions := Extend(run, actions, Start, s);
    s := s.(control := Some(Control(0, true)), waiting := [0]);
    run, actions := Extend(run, actions, Stop, s);
    s := s.(waiting := [0, 0]);
    run, actions := Extend(run, actions, Stop, s);
    s := s.(consumers := [Ended]);
    run, actions := Extend(run, actions, Consume(0, true), s);
    s := s.(control := None, waiting := [0]);
    run, actions := Extend(run, actions, StopReturns(0), s);
    s := s.(control := Some(Control(1, false)), consumers := [Ended, Checking]);
    run, actions := Extend(run, actions, Start, s);
    s := s.(control := None, waiting := []);
    run, actions := Extend(run, actions, StopReturns(0), s);
    s := s.(control := Some(Control(2, false)), consumers := [Ended, Checking, Checking]);
    run, actions := Extend(run, actions, Start, s);
  }

  const A: Task := Task("a", "builder", 0, 0, Some("item"))
  const B: Task := Task("b", "builder", 0, 1, Some("item"))

  lemma FetchFirst(s: State, c: nat, task: Task, t: State)
    requires c < |s.consumers| && s.consumers[c].Fetching? && s.queue != [] && s.queue[0].1 == task
    requires IsFirst(Before, Values(s.queue), 0)
    requires t == At(s, c, Dispatching(task)).(queue := s.queue[1..], fetched := s.fetched + [task])
    ensures Step(s, Consume(c, true), t)
  {
    assert Without(s.queue, 0) == s.queue[1..];
    assert DequeuedTask(s.queue, task, t.queue);
  }

  lemma FirstTask() returns (run: seq<State>, actions: seq<Action>)
    ensures IsRun(run, actions)
    ensures run[|actions|] == State([], [Ended, Dispatching(A), Checking], Some(Control(2, false)), [], [A], [], [A], [], [], [], 0)
  {
    run, actions := TwoConsumersCanBeAlive();
    var s := run[|actions|].(queue := [("a", A)], enqueued := [A]);
    run, actions := Extend(run, actions, Enqueue(A), s);
    s := s.(consumers := [Ended, Fetching, Checking]);
    run, actions := Extend(run, actions, Consume(1, true), s);
    s := s.(consumers := [Ended, Dispatching(A), Checking], queue := [], fetched := [A]);
    FetchFirst(run[|actions|], 1, A, s);
    run, actions := Extend(run, actions, Consume(1, true), s);
  }

  // Then both can hold a task when stop is signalled, and both call execute after it.
  lemma TwoCallsAfterStop() returns (run: seq<State>, actions: seq<Action>)
    ensures IsRun(run, actions) && run[|actions|].callsSinceStop == 2
  {
    run, actions := FirstTask();
    run, actions := SecondTask(run, actions);
    var s := run[|actions|].(control := Some(Control(2, true)), waiting := [2]);
    run, actions := Extend(run, actions, Stop, s);
    s := s.(consumers := [Ended, Executing(A), Dispatching(B)], calls := [A], callsSinceStop := 1);
    run, actions := Extend(run, actions, Consume(1, true), s);
    s := s.(consumers := [Ended, Executing(A), Executing(B)], calls := [A, B], callsSinceStop := 2);
    run, actions := Extend(run, actions, Consume(2, true), s);
  }

  lemma SecondTask(run: seq<State>, actions: seq<Action>) returns (run': seq<State>, actions': seq<Action>)
    requires IsRun(run, actions)
    requires run[|actions|] == State([], [Ended, Dispatching(A), Checking], Some(Control(2, false)), [], [A], [], [A], [], [], [], 0)
    ensures IsRun(run', actions')
    ensures run'[|actions'|]
            == State([], [Ended, Dispatching(A), Dispatching(B)], Some(Control(2, false)), [], [A, B], [], [A, B], [], [], [], 0)
  {
    var s := run[|actions|].(queue := [("b", B)], enqueued := [A, B]);
    run', actions' := Extend(run, actions, Enqueue(B), s);
    s := s.(consumers := [Ended, Dispatching(A), Fetching]);
    run', actions' := Extend(run', actions', Consume(2, true), s);
    s := s.(consumers := [Ended, Dispatching(A), Dispatching(B)], queue := [], fetched := [A, B]);
    FetchFirst(run'[|actions'|], 2, B, s);
    run', actions' := Extend(run', actions', Consume(2, true), s);
  }
}
