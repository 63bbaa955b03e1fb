/** The in-memory task queue: a dictionary of tasks by id, and a counter per agent. */
module TaskQueue {
  import opened Wrappers
  import opened StableSorting
  import OrderedMap

  // The work item is None when the task's context holds no usable one.
  datatype Task = Task(id: string, agent: string, priority: int, createdAt: int, workItem: Option<string>)

  type Tasks = seq<(string, Task)>

  // Higher priority first, then earlier creation.
  predicate Before(a: Task, b: Task) {
    a.priority > b.priority || (a.priority == b.priority && a.createdAt < b.createdAt)
  }

  function Values(tasks: Tasks): (r: seq<Task>)
    ensures |r| == |tasks| && forall i :: 0 <= i < |tasks| ==> r[i] == tasks[i].1
  {
    seq(|tasks|, i requires 0 <= i < |tasks| => tasks[i].1)
  }

  ghost predicate ByOwnId(tasks: Tasks) {
    OrderedMap.KeysDistinct(tasks) && forall i :: 0 <= i < |tasks| ==> tasks[i].0 == tasks[i].1.id
  }

  // The task an enqueue overwrites, if its id is taken.
  function Overwritten(tasks: Tasks, id: string): seq<Task> {
    if tasks == [] then []
    else if tasks[0].0 == id then [tasks[0].1]
    else Overwritten(tasks[1..], id)
  }

  // How many of the tasks are for the agent.
  function CountFor(tasks: seq<Task>, agent: string): nat {
    if tasks == [] then 0
    else CountFor(tasks[..|tasks| - 1], agent) + (if tasks[|tasks| - 1].agent == agent then 1 else 0)
  }

  lemma {:induction false} CountForConcat(a: seq<Task>, b: seq<Task>, agent: string)
    ensures CountFor(a + b, agent) == CountFor(a, agent) + CountFor(b, agent)
  {
    if b == [] {
      assert a + b == a;
    } else {
      assert (a + b)[..|a + b| - 1] == a + b[..|b| - 1];
      CountForConcat(a, b[..|b| - 1], agent);
    }
  }

  // Setting an id: what was there is replaced where it stands, a new id goes to the end.
  lemma {:induction false} SetCases(tasks: Tasks, t: Task) returns (i: nat)
    ensures i <= |tasks|
    ensures i < |tasks| ==> tasks[i].0 == t.id && OrderedMap.Set(tasks, t.id, t) == tasks[i := (t.id, t)]
                            && Overwritten(tasks, t.id) == [tasks[i].1]
    ensures i == |tasks| ==> OrderedMap.Set(tasks, t.id, t) == tasks + [(t.id, t)] && Overwritten(tasks, t.id) == []
                             && forall j :: 0 <= j < |tasks| ==> tasks[j].0 != t.id
  {
    if tasks == [] || tasks[0].0 == t.id {
      i := 0;
    } else {
      i := SetCases(tasks[1..], t);
      i := i + 1;
      forall j | i == |tasks| && 0 <= j < |tasks| ensures tasks[j].0 != t.id {
        assert j > 0 ==> tasks[j] == tasks[1..][j - 1];
      }
    }
  }

  lemma CountForSplit(v: seq<Task>, i: nat, agent: string)
    requires i < |v|
    ensures CountFor(v, agent) == CountFor(Without(v, i), agent) + (if v[i].agent == agent then 1 else 0)
  {
    assert v == v[..i] + ([v[i]] + v[i + 1..]);
    CountForConcat(v[..i], [v[i]] + v[i + 1..], agent);
    CountForConcat([v[i]], v[i + 1..], agent);
    CountForConcat(v[..i], v[i + 1..], agent);
  }

  lemma SetKeepsIds(tasks: Tasks, t: Task)
    requires ByOwnId(tasks)
    ensures ByOwnId(OrderedMap.Set(tasks, t.id, t))
  {
    var i := SetCases(tasks, t);
    var r := OrderedMap.Set(tasks, t.id, t);
    forall j, k | 0 <= j < k < |r| ensures r[j].0 != r[k].0 {
      assert k < |tasks| ==> tasks[j].0 != tasks[k].0;
    }
  }

  lemma SetCounts(tasks: Tasks, t: Task, agent: string)
    ensures CountFor(Values(OrderedMap.Set(tasks, t.id, t)), agent) + CountFor(Overwritten(tasks, t.id), agent)
         == CountFor(Values(tasks), agent) + (if t.agent == agent then 1 else 0)
  {
    var i := SetCases(tasks, t);
    var v, r := Values(tasks), Values(OrderedMap.Set(tasks, t.id, t));
    if i < |tasks| {
      assert r == v[i := t];
      CountForSplit(v, i, agent);
      CountForSplit(r, i, agent);
      assert Without(r, i) == Without(v, i);
    } else {
      assert r == v + [t];
      CountForConcat(v, [t], agent);
    }
  }

  lemma EnqueueCounts(tasks: Tasks, t: Task, enqueued: seq<Task>, lost: seq<Task>, agent: string)
    ensures var one := if t.agent == agent then 1 else 0;
      && CountFor(enqueued + [t], agent) == CountFor(enqueued, agent) + one
      && CountFor(lost + Overwritten(tasks, t.id), agent) + CountFor(Values(OrderedMap.Set(tasks, t.id, t)), agent)
         == CountFor(lost, agent) + CountFor(Values(tasks), agent) + one
  {
    SetCounts(tasks, t, agent);
    CountForConcat(lost, Overwritten(tasks, t.id), agent);
    CountForConcat(enqueued, [t], agent);
  }

  lemma ValuesWithout(tasks: Tasks, m: nat)
    requires m < |tasks|
    ensures Values(Without(tasks, m)) == Without(Values(tasks), m)
  {
  }

  lemma WithoutKeepsIds(tasks: Tasks, m: nat)
    requires ByOwnId(tasks) && m < |tasks|
    ensures ByOwnId(Without(tasks, m)) && Values(Without(tasks, m)) == Without(Values(tasks), m)
  {
    ValuesWithout(tasks, m);
  }

  function Depth(counters: map<string, int>, agent: string): int {
    if agent in counters then counters[agent] else 0
  }

  // The scan of the queue: the first task in queue order among those nothing must precede.
  method FindFirst(tasks: seq<Task>) returns (best: nat)
    requires tasks != []
    ensures IsFirst(Before, tasks, best)
    ensures forall i :: 0 <= i < |tasks| ==> tasks[i].priority <= tasks[best].priority
    ensures forall i :: 0 <= i < |tasks| && tasks[i].priority == tasks[best].priority ==>
              tasks[best].createdAt <= tasks[i].createdAt && (tasks[best].createdAt == tasks[i].createdAt ==> best <= i)
  {
    best := 0;
    for k := 1 to |tasks|
      invariant best < k && IsFirst(Before, tasks[..k], best)
    {
      var candidate, highest := tasks[k], tasks[best];
      if candidate.priority > highest.priority {
        best := k;
      } else if candidate.priority == highest.priority {
        if candidate.createdAt < highest.createdAt {
          best := k;
        }
      }
    }
    assert tasks[..|tasks|] == tasks;
  }

  // What one dequeue leaves for the next is the rest of the stable sort.
  ghost predicate DequeuedTask(before: Tasks, task: Task, after: Tasks) {
    exists m: nat :: m < |before| && IsFirst(Before, Values(before), m) && task == before[m].1 && after == Without(before, m)
  }

  lemma DequeueIsHeadOfSort(before: Tasks, task: Task, after: Tasks)
    requires DequeuedTask(before, task, after)
    ensures Sort(Before, Values(before)) == [task] + Sort(Before, Values(after))
    ensures |after| == |before| - 1
  {
    var m: nat :| m < |before| && IsFirst(Before, Values(before), m) && task == before[m].1 && after == Without(before, m);
    ValuesWithout(before, m);
    SortSelectsFirst(Before, Values(before), m);
  }

  lemma DequeueContinues(drained: seq<Task>, before: Tasks, task: Task, after: Tasks)
    requires DequeuedTask(before, task, after)
    ensures (drained + [task]) + Sort(Before, Values(after)) == drained + Sort(Before, Values(before))
    ensures |after| < |before|
  {
    DequeueIsHeadOfSort(before, task, after);
  }

  // The tasks of that very priority and creation time, in their order.
  function WithRank(tasks: seq<Task>, priority: int, createdAt: int): seq<Task> {
    if tasks == [] then []
    else
      var last := tasks[|tasks| - 1];
      WithRank(tasks[..|tasks| - 1], priority, createdAt)
      + (if last.priority == priority && last.createdAt == createdAt then [last] else [])
  }

  lemma {:induction false} TiesHaveTheSameRank(tasks: seq<Task>, t: Task)
    ensures Ties(Before, tasks, t) == WithRank(tasks, t.priority, t.createdAt)
  {
    if tasks != [] {
      TiesHaveTheSameRank(tasks[..|tasks| - 1], t);
    }
  }

  // The order in which tasks leave: all of them, the higher priority first, then the earlier
  // creation time, and those equal in both as they were stored.
  lemma QueueOrder(tasks: seq<Task>)
    ensures var d := Sort(Before, tasks);
      && multiset(d) == multiset(tasks)
      && (forall i, j :: 0 <= i < j < |d| ==>
            d[i].priority > d[j].priority || (d[i].priority == d[j].priority && d[i].createdAt <= d[j].createdAt))
      && (forall priority, createdAt :: WithRank(d, priority, createdAt) == WithRank(tasks, priority, createdAt))
  {
    SortIsSortedPermutation(Before, tasks);
    forall priority, createdAt
      ensures WithRank(Sort(Before, tasks), priority, createdAt) == WithRank(tasks, priority, createdAt)
    {
      var t := Task("", "", priority, createdAt, None);
      SortIsStable(Before, tasks, t);
      TiesHaveTheSameRank(tasks, t);
      TiesHaveTheSameRank(Sort(Before, tasks), t);
    }
  }

  class InMemoryTaskQueue {
    var tasks: Tasks
    var queueByAgent: map<string, int>
    // the tasks enqueued, dequeued and overwritten so far
    ghost var enqueued: seq<Task>
    ghost var dequeued: seq<Task>
    ghost var lost: seq<Task>

    ghost predicate Valid()
      reads this
    {
      ByOwnId(tasks) && forall a :: Accounts(a)
    }

    ghost predicate Accounts(a: string)
      reads this
    {
      && Depth(queueByAgent, a) == CountFor(enqueued, a) - CountFor(dequeued, a)
      && CountFor(enqueued, a) == CountFor(dequeued, a) + CountFor(lost, a) + CountFor(Values(tasks), a)
    }

    constructor ()
      ensures Valid() && tasks == [] && enqueued == dequeued == lost == []
    {
      tasks, queueByAgent := [], map[];
      enqueued, dequeued, lost := [], [], [];
    }

    method Enqueue(task: Task) returns (id: string)
      requires Valid()
      modifies this
      ensures Valid() && id == task.id
      ensures tasks == OrderedMap.Set(old(tasks), task.id, task)
      ensures enqueued == old(enqueued) + [task] && dequeued == old(dequeued)
      ensures lost == old(lost) + Overwritten(old(tasks), task.id)
    {
      ghost var over := Overwritten(tasks, task.id);
      SetKeepsIds(tasks, task);
      lost := lost + over;
      tasks := OrderedMap.Set(tasks, task.id, task);
      queueByAgent := queueByAgent[task.agent := Depth(queueByAgent, task.agent) + 1];
      enqueued := enqueued + [task];
      forall a ensures Accounts(a) {
        assert old(Accounts(a));
        EnqueueCounts(old(tasks), task, old(enqueued), old(lost), a);
      }
      return task.id;
    }

    method Dequeue() returns (task: Option<Task>)
      requires Valid()
      modifies this
      ensures Valid() && enqueued == old(enqueued) && lost == old(lost)
      ensures task == None <==> old(tasks) == []
      ensures task == None ==> tasks == [] && dequeued == old(dequeued)
      ensures task != None ==> DequeuedTask(old(tasks), task.value, tasks) && dequeued == old(dequeued) + [task.value]
      ensures task != None ==> forall i :: 0 <= i < |tasks| ==>
                tasks[i].1.priority < task.value.priority
                || (tasks[i].1.priority == task.value.priority && task.value.createdAt <= tasks[i].1.createdAt)
      ensures task != None ==> exists m: nat ::
                && m < |old(tasks)| && task.value == old(tasks)[m].1
                && tasks == old(tasks)[..m] + old(tasks)[m + 1..]
                && (forall i :: 0 <= i < m ==> old(tasks)[i].1.priority < task.value.priority
                                               || task.value.createdAt < old(tasks)[i].1.createdAt)
    {
      if tasks == [] {
        return None;
      }
      var best := FindFirst(Values(tasks));
      task := Some(tasks[best].1);
      RemoveAt(best);
    }

    method RemoveAt(i: nat)
      requires Valid() && i < |tasks|
      modifies this
      ensures Valid() && tasks == Without(old(tasks), i)
      ensures enqueued == old(enqueued) && lost == old(lost) && dequeued == old(dequeued) + [old(tasks)[i].1]
    {
      var task := tasks[i].1;
      WithoutKeepsIds(tasks, i);
      ghost var values := Values(tasks);
      CountForSplit(values, i, task.agent);
      assert Accounts(task.agent);
      tasks := Without(tasks, i);
      queueByAgent := queueByAgent[task.agent := (if task.agent in queueByAgent then queueByAgent[task.agent] else 1) - 1];
      dequeued := dequeued + [task];
      forall a ensures Accounts(a) {
        assert old(Accounts(a));
        CountForSplit(values, i, a);
        CountForConcat(old(dequeued), [task], a);
      }
    }

    // The counter is the number of stored tasks plus the number of overwritten ones.
    method GetQueueDepth(agent: string) returns (depth: int)
      requires Valid()
      ensures depth == CountFor(enqueued, agent) - CountFor(dequeued, agent)
      ensures depth == CountFor(Values(tasks), agent) + CountFor(lost, agent)
    {
      depth := Depth(queueByAgent, agent);
      assert Accounts(agent);
    }

    // Draining yields the stable sort by priority and creation time.
    method Drain() returns (drained: seq<Task>)
      requires Valid()
      modifies this
      ensures Valid() && tasks == []
      ensures drained == Sort(Before, Values(old(tasks)))
      ensures multiset(drained) == multiset(Values(old(tasks)))
      ensures forall i, j :: 0 <= i < j < |drained| ==>
                drained[i].priority > drained[j].priority
                || (drained[i].priority == drained[j].priority && drained[i].createdAt <= drained[j].createdAt)
      ensures forall priority, createdAt ::
                WithRank(drained, priority, createdAt) == WithRank(Values(old(tasks)), priority, createdAt)
    {
      QueueOrder(Values(tasks));
      drained := DequeueAll();
    }

    method DequeueAll() returns (drained: seq<Task>)
      requires Valid()
      modifies this
      ensures Valid() && tasks == []
      ensures drained == Sort(Before, Values(old(tasks)))
    {
      drained := [];
      ghost var expected := Sort(Before, Values(tasks));
      while tasks != []
        invariant Valid() && drained + Sort(Before, Values(tasks)) == expected
        decreases |tasks|
      {
        ghost var before := tasks;
        var next := Dequeue();
        DequeueContinues(drained, before, next.value, tasks);
        drained := drained + [next.value];
      }
    }
  }
}
