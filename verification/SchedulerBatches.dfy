/** Which tasks a visit to `process_queue` runs, and in which order, whatever the other
    threads do meanwhile. */
module SchedulerBatches {
  import opened Scheduler

  lemma {:induction false} RunSplit(s: State, first: seq<Step>, second: seq<Step>)
    requires Runs(s, first + second)
    ensures Runs(s, first) && Runs(Final(s, first), second)
    ensures Final(s, first + second) == Final(Final(s, first), second)
    decreases |first|
  {
    hide Apply, Enabled;
    if first == [] {
      assert first + second == second;
    } else {
      assert (first + second)[1..] == first[1..] + second;
      RunSplit(Apply(s, first[0]), first[1..], second);
    }
  }

  /** The tasks of the worker's batch, and those of them it has run. */
  function Batch(worker: Worker): seq<Task> {
    if worker.Swapped? then worker.batch else Order(worker)
  }

  function DoneBy(worker: Worker): seq<Task> {
    if worker.Outside? || worker.Swapped? then [] else worker.done
  }

  /** Worker `w` is inside `process_queue` with exactly the tasks of `q`. */
  ghost predicate Serves(s: State, w: nat, q: multiset<Task>) {
    && IsWorker(s, w) && !s.workers[w].Outside?
    && multiset(Batch(s.workers[w])) == q
    && multiset(DoneBy(s.workers[w])) <= s.run
  }

  lemma EntryServes(s: State, w: nat)
    requires Enabled(s, Swap(w)) && s.queue != []
    ensures Serves(Apply(s, Swap(w)), w, multiset(s.queue))
  {
  }

  lemma OthersKeepServing(s: State, step: Step, w: nat, q: multiset<Task>)
    requires Serves(s, w, q) && Enabled(s, step)
    requires step.Submit? || step.Clear? || step.w != w
    ensures Serves(Apply(s, step), w, q)
  {
    hide Wrap, Descending;
    assert Apply(s, step).workers[w] == s.workers[w];
    hide Batch, DoneBy;
  }

  lemma OwnStepKeepsServing(s: State, step: Step, w: nat, q: multiset<Task>)
    requires Serves(s, w, q) && Enabled(s, step)
    requires !step.Submit? && !step.Clear? && step.w == w && !step.Leave?
    ensures Serves(Apply(s, step), w, q)
  {
    hide Wrap, Descending;
    var was, now := s.workers[w], Apply(s, step).workers[w];
    match step
    case Sort(_, order) => assert [] + order == order;
    case Start(_) => StartedOrder(was.done, was.rest);
    case Finish(_) => assert multiset(was.done + [was.t]) == multiset(was.done) + multiset{was.t};
    case _ =>
  }

  /** The visit ends with its whole batch run and recorded. */
  lemma LeavingServes(s: State, w: nat, q: multiset<Task>)
    requires Serves(s, w, q) && Enabled(s, Leave(w))
    ensures var s' := Apply(s, Leave(w));
            s'.batches != [] && multiset(Latest(s'.batches)) == q && q <= s'.run
  {
    assert s.workers[w].done + [] == s.workers[w].done;
  }

  function Latest<T>(s: seq<T>): T
    requires s != []
  {
    s[|s| - 1]
  }

  lemma {:induction false} ServesAlong(s: State, steps: seq<Step>, w: nat, q: multiset<Task>)
    requires Serves(s, w, q) && Runs(s, steps) && Leave(w) !in steps
    ensures Serves(Final(s, steps), w, q)
    decreases |steps|
  {
    hide Apply, Enabled, Serves;
    if steps != [] {
      var step := steps[0];
      if step.Submit? || step.Clear? || step.w != w {
        OthersKeepServing(s, step, w, q);
      } else {
        OwnStepKeepsServing(s, step, w, q);
      }
      ServesAlong(Apply(s, step), steps[1..], w, q);
    }
  }

  /** The queue worker `w` finds when it enters after `before`. */
  ghost predicate Enters(workers: nat, before: seq<Step>, w: nat, after: seq<Step>, entry: State) {
    && Runs(Init(workers), before + [Swap(w)] + after)
    && Runs(Init(workers), before) && entry == Final(Init(workers), before)
  }

  lemma EntrySplit(workers: nat, before: seq<Step>, w: nat, after: seq<Step>, entry: State)
    requires Enters(workers, before, w, after, entry)
    ensures Enabled(entry, Swap(w)) && Runs(Apply(entry, Swap(w)), after)
    ensures Final(Init(workers), before + [Swap(w)] + after) == Final(Apply(entry, Swap(w)), after)
    ensures Inv(entry)
  {
    hide Apply, Enabled, Inv;
    assert before + [Swap(w)] + after == before + ([Swap(w)] + after);
    RunSplit(Init(workers), before, [Swap(w)] + after);
    assert ([Swap(w)] + after)[1..] == after;
    ReachedInv(entry, workers, before);
  }

  /** A thread that finds tasks queued runs exactly those tasks before it leaves, all of them:
      nothing that another thread, or one of the tasks, submits after its entry, and nothing
      less, however the other threads interleave with it. */
  lemma BatchIsQueueAtEntry(workers: nat, before: seq<Step>, w: nat, inside: seq<Step>, entry: State, end: State)
    requires Enters(workers, before, w, inside + [Leave(w)], entry) && entry.queue != [] && Leave(w) !in inside
    requires end == Final(Init(workers), before + [Swap(w)] + (inside + [Leave(w)]))
    ensures end.batches != [] && multiset(Latest(end.batches)) == multiset(entry.queue)
    ensures multiset(entry.queue) <= end.run
    ensures forall t | t in Latest(end.batches) :: t in entry.submitted
  {
    hide Apply, Enabled, Serves;
    EntrySplit(workers, before, w, inside + [Leave(w)], entry);
    var q := multiset(entry.queue);
    var s := Apply(entry, Swap(w));
    EntryServes(entry, w);
    RunSplit(s, inside, [Leave(w)]);
    ServesAlong(s, inside, w, q);
    LeavingServes(Final(s, inside), w, q);
    QueueIsSubmitted(entry);
    hide Inv;
    forall t | t in Latest(end.batches)
      ensures t in entry.submitted
    {
      assert t in multiset(Latest(end.batches));
    }
  }

  lemma QueueIsSubmitted(s: State)
    requires Inv(s)
    ensures forall t | t in multiset(s.queue) :: t in s.submitted
  {
    hide AllHeld, AllOpsPending, AllTaskPending;
  }

  // ----- The order within a batch

  lemma HeldByOne(s: State, w: nat, t: Task)
    requires Inv(s) && IsWorker(s, w) && t in Held(s.workers[w])
    ensures s.run[t] == 0
  {
    WorkerReplaced(s.workers, w, Outside);
    hide AllHeld, AllOpsPending, AllTaskPending;
    assert (AllHeld(s.workers[w := Outside]) + Held(s.workers[w]))[t] == (AllHeld(s.workers) + Held(Outside))[t];
    assert s.submitted[t] == (multiset(s.queue) + AllHeld(s.workers) + s.run + s.cleared)[t];
  }

  lemma RunMeansDone(s: State, w: nat, q: multiset<Task>, t: Task)
    requires Inv(s) && Serves(s, w, q) && t in q && t in s.run
    ensures t in DoneBy(s.workers[w])
  {
    if t !in DoneBy(s.workers[w]) {
      assert t in Batch(s.workers[w]);
      assert t in Held(s.workers[w]);
      HeldByOne(s, w, t);
    }
  }

  lemma DoneComesFirst(worker: Worker)
    ensures DoneBy(worker) <= Batch(worker)
  {
  }

  lemma HigherIsEarlier(order: seq<Task>, done: seq<Task>, x: Task, y: Task)
    requires Descending(order) && done <= order && x in order && y in done && x.priority > y.priority
    ensures x in done
  {
    var i :| 0 <= i < |order| && order[i] == x;
    var j :| 0 <= j < |done| && done[j] == y;
    assert order[j] == y;
    assert i < j;
  }

  lemma HigherDone(s: State, w: nat, q: multiset<Task>, x: Task, y: Task)
    requires Inv(s) && Serves(s, w, q) && x in q && y in q && x.priority > y.priority && y in s.run
    ensures x in s.run
  {
    RunMeansDone(s, w, q, y);
    var worker := s.workers[w];
    assert WorkerOk(worker) && Descending(Order(worker));
    DoneComesFirst(worker);
    assert x in Batch(worker) && multiset(DoneBy(worker)) <= s.run;
    assert worker.Swapped? ==> DoneBy(worker) == [];
    assert !worker.Swapped? ==> Batch(worker) == Order(worker);
    hide *;
    HigherIsEarlier(Order(worker), DoneBy(worker), x, y);
    assert x in multiset(DoneBy(worker));
  }

  lemma RunOnlyGrows(s: State, step: Step)
    requires Enabled(s, step)
    ensures s.run <= Apply(s, step).run
  {
  }

  lemma {:induction false} HigherAlong(s: State, steps: seq<Step>, w: nat, q: multiset<Task>, x: Task, y: Task)
    requires Inv(s) && (Serves(s, w, q) || q <= s.run) && Runs(s, steps)
    requires x in q && y in q && x.priority > y.priority && y in Final(s, steps).run
    ensures x in Final(s, steps).run
    decreases |steps|
  {
    hide Apply, Enabled, Serves, Inv;
    if steps == [] {
      if Serves(s, w, q) { HigherDone(s, w, q, x, y); }
    } else {
      var step := steps[0];
      StepKeepsInv(s, step);
      RunOnlyGrows(s, step);
      if Serves(s, w, q) {
        if step == Leave(w) {
          LeavingServes(s, w, q);
        } else if step.Submit? || step.Clear? || step.w != w {
          OthersKeepServing(s, step, w, q);
        } else {
          OwnStepKeepsServing(s, step, w, q);
        }
      }
      HigherAlong(Apply(s, step), steps[1..], w, q, x, y);
    }
  }

  /** Of two tasks queued when a thread enters, the one of lower priority has run only if the
      other has, at every later moment of every interleaving. */
  lemma HigherPriorityFirst(workers: nat, before: seq<Step>, w: nat, after: seq<Step>, entry: State, x: Task, y: Task)
    requires Enters(workers, before, w, after, entry)
    requires x in entry.queue && y in entry.queue && x.priority > y.priority
    requires y in Final(Init(workers), before + [Swap(w)] + after).run
    ensures x in Final(Init(workers), before + [Swap(w)] + after).run
  {
    hide Apply, Enabled, Serves, Inv;
    EntrySplit(workers, before, w, after, entry);
    EntryServes(entry, w);
    StepKeepsInv(entry, Swap(w));
    HigherAlong(Apply(entry, Swap(w)), after, w, multiset(entry.queue), x, y);
  }

  // ----- What clearing means

  lemma ClearedOnlyGrows(s: State, step: Step)
    requires Enabled(s, step)
    ensures s.cleared <= Apply(s, step).cleared
  {
  }

  lemma {:induction false} ClearedAlong(s: State, steps: seq<Step>, t: Task)
    requires Inv(s) && Runs(s, steps) && t in s.cleared
    ensures Inv(Final(s, steps)) && t in Final(s, steps).cleared
    decreases |steps|
  {
    hide Apply, Enabled, Inv;
    if steps != [] {
      StepKeepsInv(s, steps[0]);
      ClearedOnlyGrows(s, steps[0]);
      ClearedAlong(Apply(s, steps[0]), steps[1..], t);
    }
  }

  lemma ClearedIsNotRun(s: State, t: Task)
    requires Inv(s) && t in s.cleared
    ensures t !in s.run && t !in multiset(s.queue) && forall w | 0 <= w < |s.workers| :: t !in Held(s.workers[w])
  {
    hide AllHeld, AllOpsPending, AllTaskPending;
    assert s.submitted[t] == (multiset(s.queue) + AllHeld(s.workers) + s.run + s.cleared)[t];
    forall w | 0 <= w < |s.workers|
      ensures t !in Held(s.workers[w])
    {
      WorkerReplaced(s.workers, w, Outside);
      assert (AllHeld(s.workers[w := Outside]) + Held(s.workers[w]))[t] == (AllHeld(s.workers) + Held(Outside))[t];
    }
  }

  /** A task queued when the queue is cleared is never run, by nobody, in no continuation. */
  lemma ClearedNeverRun(workers: nat, before: seq<Step>, after: seq<Step>, t: Task)
    requires Runs(Init(workers), before + [Clear] + after) && Runs(Init(workers), before)
    requires t in Final(Init(workers), before).queue
    ensures t !in Final(Init(workers), before + [Clear] + after).run
  {
    hide Apply, Inv, Enabled;
    var entry := Final(Init(workers), before);
    assert before + [Clear] + after == before + ([Clear] + after);
    RunSplit(Init(workers), before, [Clear] + after);
    assert ([Clear] + after)[1..] == after;
    ReachedInv(entry, workers, before);
    StepKeepsInv(entry, Clear);
    ClearTakesAll(entry, t);
    ClearedAlong(Apply(entry, Clear), after, t);
    hide Runs, Init, Final;
    ClearedIsNotRun(Final(Init(workers), before + [Clear] + after), t);
  }

  lemma ClearTakesAll(s: State, t: Task)
    requires t in s.queue
    ensures Enabled(s, Clear) && t in Apply(s, Clear).cleared
  {
    assert t in multiset(s.queue);
  }

  // ----- What the counters mean

  lemma {:induction false} SumOpsAppend(a: seq<Task>, b: seq<Task>)
    ensures SumOps(a + b) == SumOps(a) + SumOps(b)
  {
    if b == [] {
      assert a + b == a;
    } else {
      var n := |b| - 1;
      assert (a + b)[..|a| + n] == a + b[..n];
      SumOpsAppend(a, b[..n]);
    }
  }

  lemma Without(a: multiset<Task>, b: multiset<Task>, t: Task)
    requires a + multiset{t} == b + multiset{t}
    ensures a == b
  {
    Cancel(a, multiset{t}, b);
  }

  /** The operations of a log do not depend on its order. */
  lemma {:induction false} SumOpsOfPermutation(a: seq<Task>, b: seq<Task>)
    requires multiset(a) == multiset(b)
    ensures SumOps(a) == SumOps(b)
    decreases |a|
  {
    assert |multiset(a)| == |a| && |multiset(b)| == |b|;
    if a != [] {
      var n := |a| - 1;
      assert a[n] in multiset(b);
      var k :| 0 <= k < |b| && b[k] == a[n];
      var rest := b[..k] + b[k + 1..];
      assert b == b[..k] + [b[k]] + b[k + 1..] && a == a[..n] + [a[n]];
      Without(multiset(a[..n]), multiset(rest), a[n]);
      SumOpsOfPermutation(a[..n], rest);
      SumOpsAppend(b[..k], b[k + 1..]);
      SumOpsAppend(b[..k] + [b[k]], b[k + 1..]);
      LogAppend(b[..k], b[k]);
    }
  }

  lemma WrapIsWord(x: int)
    ensures -0x8000_0000_0000_0000 <= Wrap(x) < 0x8000_0000_0000_0000
    ensures (x - Wrap(x)) % 0x1_0000_0000_0000_0000 == 0
  {
  }

  /** Once no thread is processing, `total_tasks_` is the number of tasks run and `total_ops_` the
      operations of any list of them, one by one, as 64-bit counters hold them. */
  lemma CountersCountTasksRun(s: State, workers: nat, steps: seq<Step>, tasks: seq<Task>)
    requires Reached(s, workers, steps) && forall w | 0 <= w < |s.workers| :: s.workers[w].Outside?
    requires multiset(tasks) == s.run
    ensures (|tasks| - s.totalTasks) % 0x1_0000_0000_0000_0000 == 0
    ensures (SumOps(tasks) - s.totalOps) % 0x1_0000_0000_0000_0000 == 0
    ensures -0x8000_0000_0000_0000 <= s.totalTasks < 0x8000_0000_0000_0000
    ensures -0x8000_0000_0000_0000 <= s.totalOps < 0x8000_0000_0000_0000
    ensures forall t: Task :: SumOps([t]) == t.ops
  {
    hide *;
    CountersAreExact(s, workers, steps);
    assert |multiset(tasks)| == |tasks|;
    WrapIsWord(|tasks|);
    WrapIsWord(SumOps(tasks));
    SumOpsOfPermutation(s.opsLog, tasks);
    forall t: Task
      ensures SumOps([t]) == t.ops
    {
      SumOpsOfOne(t);
    }
  }

  lemma SumOpsOfOne(t: Task)
    ensures SumOps([t]) == t.ops
  {
    assert [] + [t] == [t];
    LogAppend([], t);
  }

  /** A new task can be submitted and the queue cleared at any time, and a thread that is not inside
      can enter; once inside it is never stuck (`ProcessingFinishes`). */
  lemma CallsCanBegin(s: State, t: Task, w: nat)
    requires t !in s.submitted && w < |s.workers| && s.workers[w].Outside?
    ensures Enabled(s, Submit(t)) && Enabled(s, Clear) && Enabled(s, Swap(w))
    ensures t in Apply(s, Submit(t)).queue
    ensures s.queue == [] ==> Apply(s, Swap(w)).workers[w].Outside?
  {
  }
}
