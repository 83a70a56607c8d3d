/** The scheduler object, used by one thread: the queue is appended to, swapped out,
    sorted, run and cleared in place, and what a task's work does to the scheduler is
    to submit more tasks. */
module SchedulerObject {
  import opened Scheduler

  /** The tasks submitted by running the tasks of `ts` in order. */
  function Spawned(ts: seq<Task>, work: Task -> seq<Task>): seq<Task> {
    if ts == [] then [] else Spawned(ts[..|ts| - 1], work) + work(Last(ts))
  }

  /** The state of the counters after `ts`. */
  function Counted(total: int, ts: seq<Task>): int {
    Wrap(total + SumOps(ts))
  }

  class InfernoScheduler {
    var queue: seq<Task>
    var totalOps: int
    var totalTasks: int

    ghost predicate Valid()
      reads this
    {
      Wrap(totalOps) == totalOps && Wrap(totalTasks) == totalTasks
    }

    constructor ()
      ensures Valid() && queue == [] && totalOps == 0 && totalTasks == 0
    {
      queue, totalOps, totalTasks := [], 0, 0;
    }

    method SubmitTask(t: Task)
      modifies this`queue
      ensures queue == old(queue) + [t]
    {
      queue := queue + [t];
    }

    method ClearQueue()
      modifies this`queue
      ensures queue == []
    {
      queue := [];
    }

    method QueueSize() returns (n: nat)
      ensures n == |queue|
    {
      n := |queue|;
    }

    /** One turn of the run loop: the work, here submitting `more`, then the counters. */
    method RunTask(t: Task, more: seq<Task>)
      modifies this
      ensures queue == old(queue) + more
      ensures totalOps == Wrap(old(totalOps) + t.ops) && totalTasks == Wrap(old(totalTasks) + 1)
    {
      hide Wrap;
      for j := 0 to |more|
        invariant queue == old(queue) + more[..j]
        invariant totalOps == old(totalOps) && totalTasks == old(totalTasks)
      {
        SubmitTask(more[j]);
      }
      assert more[..|more|] == more;
      totalOps := Wrap(totalOps + t.ops);
      totalTasks := Wrap(totalTasks + 1);
    }

    /** `work(t)` are the tasks that running `t` submits. The batch is the queue as it
        was; tasks submitted meanwhile wait for the next call. */
    method ProcessQueue(work: Task -> seq<Task>) returns (order: seq<Task>)
      requires Valid()
      modifies this
      ensures Valid()
      ensures multiset(order) == multiset(old(queue)) && Descending(order)
      ensures queue == Spawned(order, work)
      ensures totalOps == Counted(old(totalOps), order)
      ensures totalTasks == Wrap(old(totalTasks) + |order|)
    {
      order := [];
      if queue == [] {
        return;
      }
      hide Wrap, Counted, Spawned;
      CountedNothing(totalOps);
      var local := queue;
      queue := [];
      local := Sorted(local);
      for i := 0 to |local|
        invariant queue == Spawned(local[..i], work)
        invariant totalOps == Counted(old(totalOps), local[..i])
        invariant totalTasks == Wrap(old(totalTasks) + i)
      {
        var t := local[i];
        assert local[..i + 1] == local[..i] + [t];
        SpawnedStep(local[..i], t, work);
        RunTask(t, work(t));
        CountedStep(old(totalOps), local[..i], t, old(totalTasks) + i);
      }
      assert local[..|local|] == local;
      order := local;
    }
  }

  lemma CountedStep(total: int, ts: seq<Task>, t: Task, n: int)
    ensures Wrap(Counted(total, ts) + t.ops) == Counted(total, ts + [t])
    ensures Wrap(Wrap(n) + 1) == Wrap(n + 1)
  {
    hide Wrap;
    WrapAdds(total + SumOps(ts), t.ops);
    WrapAdds(n, 1);
    LogAppend(ts, t);
  }

  lemma SpawnedStep(ts: seq<Task>, t: Task, work: Task -> seq<Task>)
    ensures Spawned(ts + [t], work) == Spawned(ts, work) + work(t)
  {
    assert (ts + [t])[..|ts|] == ts;
  }

  lemma CountedNothing(total: int)
    ensures Counted(total, []) == Wrap(total)
    ensures forall work: Task -> seq<Task> :: Spawned([], work) == []
    ensures forall n :: Wrap(Wrap(n)) == Wrap(n)
  {
  }

  /** The sort leaves the order of equal priorities open. */
  method Sorted(ts: seq<Task>) returns (r: seq<Task>)
    ensures multiset(r) == multiset(ts) && Descending(r)
  {
    r := [];
    for i := 0 to |ts|
      invariant multiset(r) == multiset(ts[..i]) && Descending(r)
    {
      assert ts[..i + 1] == ts[..i] + [ts[i]];
      r := Insert(r, ts[i]);
    }
    assert ts[..|ts|] == ts;
  }

  method Insert(r: seq<Task>, t: Task) returns (r': seq<Task>)
    requires Descending(r)
    ensures multiset(r') == multiset(r) + multiset{t} && Descending(r')
  {
    var k := 0;
    while k < |r| && r[k].priority >= t.priority
      invariant k <= |r| && forall i | 0 <= i < k :: r[i].priority >= t.priority
    {
      k := k + 1;
    }
    r' := r[..k] + [t] + r[k..];
    InsertedDescends(r, t, k);
    InsertedContents(r, t, k);
  }

  lemma InsertedContents(r: seq<Task>, t: Task, k: nat)
    requires k <= |r|
    ensures multiset(r[..k] + [t] + r[k..]) == multiset(r) + multiset{t}
  {
    assert r == r[..k] + r[k..];
  }

  lemma InsertedDescends(r: seq<Task>, t: Task, k: nat)
    requires Descending(r) && k <= |r|
    requires (forall i | 0 <= i < k :: r[i].priority >= t.priority)
    requires k < |r| ==> r[k].priority < t.priority
    ensures Descending(r[..k] + [t] + r[k..])
  {
    var r' := r[..k] + [t] + r[k..];
    forall i, j | 0 <= i < j < |r'|
      ensures r'[i].priority >= r'[j].priority
    {
      if j > k + 1 {
        assert r[k].priority >= r[j - 1].priority;
      }
    }
  }
}
