/** `InfernoScheduler` as a step machine: any number of threads submit, process and
    clear at once. The queue is touched under its mutex, so swapping it out,
    appending and clearing are single steps; running a task and the two counter
    increments are steps of their own, and a running task may itself submit. */
module Scheduler {

  /** `id` stands for the identity of one submission. */
  datatype Task = Task(id: nat, priority: nat, ops: int)

  /** Where a thread stands in `process_queue`; `done` lists, in order, the tasks of
      its batch it has run. */
  datatype Worker =
    | Outside
    | Swapped(batch: seq<Task>)
    | AtTask(done: seq<Task>, rest: seq<Task>)
    | Working(done: seq<Task>, t: Task, rest: seq<Task>)
    | AddingOps(done: seq<Task>, rest: seq<Task>)
    | AddingTask(done: seq<Task>, rest: seq<Task>)

  /** `submitted`, `run`, `cleared`, `opsLog`, `taskLog` and `batches` only describe
      the run: what was submitted, run and cleared, which tasks the two counters have
      taken in, and the order each finished batch was run in. */
  datatype State = State(
    queue: seq<Task>,
    workers: seq<Worker>,
    totalOps: int,
    totalTasks: int,
    submitted: multiset<Task>,
    run: multiset<Task>,
    cleared: multiset<Task>,
    opsLog: seq<Task>,
    taskLog: seq<Task>,
    batches: seq<seq<Task>>)

  datatype Step =
    | Submit(task: Task)
    | Swap(w: nat)
    | Sort(w: nat, order: seq<Task>)
    | Start(w: nat)
    | Finish(w: nat)
    | AddOps(w: nat)
    | AddTask(w: nat)
    | Leave(w: nat)
    | Clear

  /** A 64-bit counter. */
  function Wrap(x: int): int {
    (x + 0x8000_0000_0000_0000) % 0x1_0000_0000_0000_0000 - 0x8000_0000_0000_0000
  }

  predicate Descending(ts: seq<Task>) {
    forall i, j | 0 <= i < j < |ts| :: ts[i].priority >= ts[j].priority
  }

  predicate IsWorker(s: State, w: nat) { w < |s.workers| }

  predicate Enabled(s: State, step: Step) {
    match step
    case Submit(t) => t !in s.submitted
    case Swap(w) => IsWorker(s, w) && s.workers[w].Outside?
    case Sort(w, order) =>
      IsWorker(s, w) && s.workers[w].Swapped?
      && multiset(order) == multiset(s.workers[w].batch) && Descending(order)
    case Start(w) => IsWorker(s, w) && s.workers[w].AtTask? && s.workers[w].rest != []
    case Finish(w) => IsWorker(s, w) && s.workers[w].Working?
    case AddOps(w) => IsWorker(s, w) && s.workers[w].AddingOps? && s.workers[w].done != []
    case AddTask(w) => IsWorker(s, w) && s.workers[w].AddingTask? && s.workers[w].done != []
    case Leave(w) => IsWorker(s, w) && s.workers[w].AtTask? && s.workers[w].rest == []
    case Clear => true
  }

  function Goto(s: State, w: nat, worker: Worker): State
    requires IsWorker(s, w)
  {
    s.(workers := s.workers[w := worker])
  }

  function Last(ts: seq<Task>): Task
    requires ts != []
  {
    ts[|ts| - 1]
  }

  function Apply(s: State, step: Step): State
    requires Enabled(s, step)
  {
    match step
    case Submit(t) => s.(queue := s.queue + [t], submitted := s.submitted + multiset{t})
    case Swap(w) =>
      if s.queue == [] then s else Goto(s, w, Swapped(s.queue)).(queue := [])
    case Sort(w, order) => Goto(s, w, AtTask([], order))
    case Start(w) =>
      var AtTask(done, rest) := s.workers[w];
      Goto(s, w, Working(done, rest[0], rest[1..]))
    case Finish(w) =>
      var Working(done, t, rest) := s.workers[w];
      Goto(s, w, AddingOps(done + [t], rest)).(run := s.run + multiset{t})
    case AddOps(w) =>
      var AddingOps(done, rest) := s.workers[w];
      var t := Last(done);
      Goto(s, w, AddingTask(done, rest)).(totalOps := Wrap(s.totalOps + t.ops), opsLog := s.opsLog + [t])
    case AddTask(w) =>
      var AddingTask(done, rest) := s.workers[w];
      Goto(s, w, AtTask(done, rest)).(totalTasks := Wrap(s.totalTasks + 1), taskLog := s.taskLog + [Last(done)])
    case Leave(w) =>
      Goto(s, w, Outside).(batches := s.batches + [s.workers[w].done])
    case Clear => s.(queue := [], cleared := s.cleared + multiset(s.queue))
  }

  // ----- What holds in every reachable state

  /** The submitted tasks a worker holds that have not been run. */
  function Held(worker: Worker): multiset<Task> {
    match worker
    case Outside => multiset{}
    case Swapped(batch) => multiset(batch)
    case AtTask(_, rest) => multiset(rest)
    case Working(_, t, rest) => multiset{t} + multiset(rest)
    case AddingOps(_, rest) => multiset(rest)
    case AddingTask(_, rest) => multiset(rest)
  }

  /** Run, but not in `total_ops_` yet; run, but not in `total_tasks_` yet. */
  function OpsPending(worker: Worker): multiset<Task> {
    if worker.AddingOps? && worker.done != [] then multiset{Last(worker.done)} else multiset{}
  }

  function TaskPending(worker: Worker): multiset<Task> {
    if (worker.AddingOps? || worker.AddingTask?) && worker.done != [] then multiset{Last(worker.done)} else multiset{}
  }

  function Total(parts: seq<multiset<Task>>): multiset<Task> {
    if parts == [] then multiset{} else Total(parts[..|parts| - 1]) + parts[|parts| - 1]
  }

  function AllHeld(ws: seq<Worker>): multiset<Task> {
    Total(seq(|ws|, i requires 0 <= i < |ws| => Held(ws[i])))
  }

  function AllOpsPending(ws: seq<Worker>): multiset<Task> {
    Total(seq(|ws|, i requires 0 <= i < |ws| => OpsPending(ws[i])))
  }

  function AllTaskPending(ws: seq<Worker>): multiset<Task> {
    Total(seq(|ws|, i requires 0 <= i < |ws| => TaskPending(ws[i])))
  }

  function SumOps(ts: seq<Task>): int {
    if ts == [] then 0 else SumOps(ts[..|ts| - 1]) + Last(ts).ops
  }

  /** The worker's whole batch, in the order it runs it. */
  function Order(worker: Worker): seq<Task> {
    match worker
    case Outside => []
    case Swapped(_) => []
    case AtTask(done, rest) => done + rest
    case Working(done, t, rest) => done + [t] + rest
    case AddingOps(done, rest) => done + rest
    case AddingTask(done, rest) => done + rest
  }

  ghost predicate WorkerOk(worker: Worker) {
    && Descending(Order(worker))
    && (worker.AddingOps? || worker.AddingTask? ==> worker.done != [])
  }

  ghost predicate Inv(s: State) {
    && s.submitted == multiset(s.queue) + AllHeld(s.workers) + s.run + s.cleared
    && s.run == multiset(s.opsLog) + AllOpsPending(s.workers)
    && s.run == multiset(s.taskLog) + AllTaskPending(s.workers)
    && s.totalOps == Wrap(SumOps(s.opsLog))
    && s.totalTasks == Wrap(|s.taskLog|)
    && (forall t: Task :: s.submitted[t] <= 1)
    && (forall w | 0 <= w < |s.workers| :: WorkerOk(s.workers[w]))
    && (forall b | 0 <= b < |s.batches| :: Descending(s.batches[b]))
  }

  lemma {:induction false} TotalReplaced(parts: seq<multiset<Task>>, w: nat, x: multiset<Task>)
    requires w < |parts|
    ensures Total(parts[w := x]) + parts[w] == Total(parts) + x
  {
    var n := |parts| - 1;
    if w == n {
      assert parts[w := x][..n] == parts[..n];
    } else {
      assert parts[w := x][..n] == parts[..n][w := x];
      TotalReplaced(parts[..n], w, x);
      AddBoth(Total(parts[..n][w := x]), parts[w], Total(parts[..n]), x, parts[n]);
    }
  }

  lemma AddBoth(a: multiset<Task>, b: multiset<Task>, c: multiset<Task>, d: multiset<Task>, l: multiset<Task>)
    requires a + b == c + d
    ensures (a + l) + b == (c + l) + d
  {
    forall t: Task
      ensures ((a + l) + b)[t] == ((c + l) + d)[t]
    {
      assert (a + b)[t] == (c + d)[t];
    }
  }

  /** Replacing one worker changes each of the totals by its own contribution. */
  lemma WorkerReplaced(ws: seq<Worker>, w: nat, x: Worker)
    requires w < |ws|
    ensures AllHeld(ws[w := x]) + Held(ws[w]) == AllHeld(ws) + Held(x)
    ensures AllOpsPending(ws[w := x]) + OpsPending(ws[w]) == AllOpsPending(ws) + OpsPending(x)
    ensures AllTaskPending(ws[w := x]) + TaskPending(ws[w]) == AllTaskPending(ws) + TaskPending(x)
  {
    hide Held, OpsPending, TaskPending, Total;
    var ws' := ws[w := x];
    var held := seq(|ws|, i requires 0 <= i < |ws| => Held(ws[i]));
    assert seq(|ws'|, i requires 0 <= i < |ws'| => Held(ws'[i])) == held[w := Held(x)];
    TotalReplaced(held, w, Held(x));
    var ops := seq(|ws|, i requires 0 <= i < |ws| => OpsPending(ws[i]));
    assert seq(|ws'|, i requires 0 <= i < |ws'| => OpsPending(ws'[i])) == ops[w := OpsPending(x)];
    TotalReplaced(ops, w, OpsPending(x));
    var tasks := seq(|ws|, i requires 0 <= i < |ws| => TaskPending(ws[i]));
    assert seq(|ws'|, i requires 0 <= i < |ws'| => TaskPending(ws'[i])) == tasks[w := TaskPending(x)];
    TotalReplaced(tasks, w, TaskPending(x));
  }

  lemma WrapAdds(a: int, b: int)
    ensures Wrap(Wrap(a) + b) == Wrap(a + b)
  {
  }

  // ----- Every step keeps the invariant

  /** The invariant of a state but for its counters, and of its counters. */
  ghost predicate Conserved(s: State) {
    && s.submitted == multiset(s.queue) + AllHeld(s.workers) + s.run + s.cleared
    && s.run == multiset(s.opsLog) + AllOpsPending(s.workers)
    && s.run == multiset(s.taskLog) + AllTaskPending(s.workers)
  }

  /** Worker `w` becomes `now`, the counters' logs and the tasks run standing still. */
  lemma HeldMoves(s: State, s': State, w: nat, now: Worker)
    requires Conserved(s) && IsWorker(s, w) && s'.workers == s.workers[w := now]
    requires s'.submitted == s.submitted && s'.cleared == s.cleared && s'.run == s.run
    requires s'.opsLog == s.opsLog && s'.taskLog == s.taskLog
    requires OpsPending(now) == OpsPending(s.workers[w]) && TaskPending(now) == TaskPending(s.workers[w])
    requires multiset(s'.queue) + Held(now) == multiset(s.queue) + Held(s.workers[w])
    ensures Conserved(s')
  {
    WorkerReplaced(s.workers, w, now);
    hide Held, OpsPending, TaskPending, AllHeld, AllOpsPending, AllTaskPending;
    var was := s.workers[w];
    Cancel(AllOpsPending(s'.workers), OpsPending(was), AllOpsPending(s.workers));
    Cancel(AllTaskPending(s'.workers), TaskPending(was), AllTaskPending(s.workers));
    Balance(multiset(s.queue), AllHeld(s.workers), Held(was), multiset(s'.queue), AllHeld(s'.workers), Held(now));
  }

  lemma Cancel(a: multiset<Task>, x: multiset<Task>, b: multiset<Task>)
    requires a + x == b + x
    ensures a == b
  {
    forall t: Task
      ensures a[t] == b[t]
    {
      assert (a + x)[t] == (b + x)[t];
    }
  }

  /** What leaves the queue and one worker's hands as a whole is unchanged. */
  lemma Balance(q: multiset<Task>, h: multiset<Task>, was: multiset<Task>,
                q': multiset<Task>, h': multiset<Task>, now: multiset<Task>)
    requires h' + was == h + now && q' + now == q + was
    ensures q' + h' == q + h
  {
    forall t: Task
      ensures (q' + h')[t] == (q + h)[t]
    {
      assert (h' + was)[t] == (h + now)[t] && (q' + now)[t] == (q + was)[t];
    }
  }

  /** One unit passes from x to y. */
  lemma Passes(x: multiset<Task>, y: multiset<Task>, t: Task, x': multiset<Task>, y': multiset<Task>)
    requires x' + multiset{t} == x && y' == y + multiset{t}
    ensures x' + y' == x + y
  {
    forall u: Task
      ensures (x' + y')[u] == (x + y)[u]
    {
      assert (x' + multiset{t})[u] == x[u];
    }
  }

  lemma Commute(r: multiset<Task>, l: multiset<Task>, p: multiset<Task>, l': multiset<Task>, p': multiset<Task>)
    requires r == l + p && p' + l' == p + l
    ensures r == l' + p'
  {
    assert l' + p' == p' + l' && l + p == p + l;
  }

  lemma SubmitKeepsInv(s: State, t: Task)
    requires Inv(s) && t !in s.submitted
    ensures Inv(Apply(s, Submit(t)))
  {
    hide AllHeld, AllOpsPending, AllTaskPending;
    var s' := Apply(s, Submit(t));
    assert multiset(s'.queue) == multiset(s.queue) + multiset{t};
  }

  lemma ClearKeepsInv(s: State)
    requires Inv(s)
    ensures Inv(Apply(s, Clear))
  {
    hide AllHeld, AllOpsPending, AllTaskPending;
  }

  /** The parts of the invariant a step of worker `w` does not touch. */
  lemma Reassemble(s: State, s': State, w: nat)
    requires Inv(s) && IsWorker(s, w) && Conserved(s')
    requires |s'.workers| == |s.workers|
    requires forall v | 0 <= v < |s.workers| && v != w :: s'.workers[v] == s.workers[v]
    requires WorkerOk(s'.workers[w]) && s'.submitted == s.submitted
    requires s'.totalOps == Wrap(SumOps(s'.opsLog)) && s'.totalTasks == Wrap(|s'.taskLog|)
    requires s'.batches == s.batches || (s'.batches == s.batches + [Order(s.workers[w])] && s'.workers[w].Outside?)
    ensures Inv(s')
  {
    hide AllHeld, AllOpsPending, AllTaskPending, SumOps, Wrap, Descending;
    forall b | 0 <= b < |s'.batches|
      ensures Descending(s'.batches[b])
    {
      assert WorkerOk(s.workers[w]);
    }
  }

  lemma SwapKeepsInv(s: State, w: nat)
    requires Inv(s) && Enabled(s, Swap(w))
    ensures Inv(Apply(s, Swap(w)))
  {
    var s' := Apply(s, Swap(w));
    if s.queue != [] {
      hide AllHeld, AllOpsPending, AllTaskPending, SumOps, Wrap, WorkerOk;
      SwapMoves(s, w);
      NoOrder(s'.workers[w]);
      Reassemble(s, s', w);
    }
  }

  lemma SwapMoves(s: State, w: nat)
    requires Conserved(s) && Enabled(s, Swap(w)) && s.queue != []
    ensures Conserved(Apply(s, Swap(w)))
  {
    hide AllHeld, AllOpsPending, AllTaskPending;
    HeldMoves(s, Apply(s, Swap(w)), w, Swapped(s.queue));
  }

  lemma NoOrder(worker: Worker)
    requires worker.Outside? || worker.Swapped?
    ensures WorkerOk(worker)
  {
  }

  lemma SortMoves(s: State, w: nat, order: seq<Task>)
    requires Conserved(s) && Enabled(s, Sort(w, order))
    ensures Conserved(Apply(s, Sort(w, order)))
  {
    hide AllHeld, AllOpsPending, AllTaskPending, Descending;
    HeldMoves(s, Apply(s, Sort(w, order)), w, AtTask([], order));
  }

  /** The sorted batch is what the worker will run, in that order. */
  lemma SortKeepsInv(s: State, w: nat, order: seq<Task>)
    requires Inv(s) && Enabled(s, Sort(w, order))
    ensures Inv(Apply(s, Sort(w, order)))
  {
    hide AllHeld, AllOpsPending, AllTaskPending, SumOps, Wrap, Descending;
    var s' := Apply(s, Sort(w, order));
    SortMoves(s, w, order);
    assert [] + order == order;
    Reassemble(s, s', w);
  }

  lemma StartMoves(s: State, w: nat)
    requires Conserved(s) && Enabled(s, Start(w))
    ensures Conserved(Apply(s, Start(w)))
  {
    hide AllHeld, AllOpsPending, AllTaskPending;
    var s' := Apply(s, Start(w));
    var rest := s.workers[w].rest;
    assert rest == [rest[0]] + rest[1..];
    assert multiset(rest) == multiset{rest[0]} + multiset(rest[1..]);
    assert Held(s'.workers[w]) == Held(s.workers[w]);
    hide Held;
    HeldMoves(s, s', w, s'.workers[w]);
  }

  lemma StartedOrder(done: seq<Task>, rest: seq<Task>)
    requires rest != []
    ensures Order(Working(done, rest[0], rest[1..])) == Order(AtTask(done, rest))
  {
    assert done + [rest[0]] + rest[1..] == done + rest;
  }

  lemma StartKeepsInv(s: State, w: nat)
    requires Inv(s) && Enabled(s, Start(w))
    ensures Inv(Apply(s, Start(w)))
  {
    hide AllHeld, AllOpsPending, AllTaskPending, SumOps, Wrap, Descending;
    var s' := Apply(s, Start(w));
    var AtTask(done, rest) := s.workers[w];
    StartMoves(s, w);
    hide Order, Held, OpsPending, TaskPending;
    assert WorkerOk(s.workers[w]);
    StartedOrder(done, rest);
    Reassemble(s, s', w);
  }

  lemma TaskRun(ws: seq<Worker>, w: nat)
    requires w < |ws| && ws[w].Working?
    ensures var Working(done, t, rest) := ws[w];
            var ws' := ws[w := AddingOps(done + [t], rest)];
            && AllHeld(ws') + multiset{t} == AllHeld(ws)
            && AllOpsPending(ws') == AllOpsPending(ws) + multiset{t}
            && AllTaskPending(ws') == AllTaskPending(ws) + multiset{t}
  {
    var Working(done, t, rest) := ws[w];
    var now := AddingOps(done + [t], rest);
    var ws' := ws[w := now];
    assert Last(done + [t]) == t;
    WorkerReplaced(ws, w, now);
    assert Held(ws[w]) == multiset{t} + Held(now);
    assert OpsPending(ws[w]) == multiset{} && OpsPending(now) == multiset{t};
    assert TaskPending(ws[w]) == multiset{} && TaskPending(now) == multiset{t};
    hide Held, OpsPending, TaskPending, AllHeld, AllOpsPending, AllTaskPending;
    HandOver(AllHeld(ws), Held(now), t, AllHeld(ws'));
  }

  /** The task just run passes from the worker's hands to the tasks run, and waits to
      be counted. */
  lemma FinishMoves(s: State, w: nat)
    requires Conserved(s) && Enabled(s, Finish(w))
    ensures Conserved(Apply(s, Finish(w)))
  {
    hide AllHeld, AllOpsPending, AllTaskPending;
    var s' := Apply(s, Finish(w));
    var t := s.workers[w].t;
    TaskRun(s.workers, w);
    Passes(AllHeld(s.workers), s.run, t, AllHeld(s'.workers), s'.run);
    Regroup(multiset(s.queue), AllHeld(s.workers), s.run, s.cleared, AllHeld(s'.workers), s'.run);
    Extend(s.run, multiset(s.opsLog), AllOpsPending(s.workers), t);
    Extend(s.run, multiset(s.taskLog), AllTaskPending(s.workers), t);
  }

  lemma Regroup(q: multiset<Task>, h: multiset<Task>, r: multiset<Task>, c: multiset<Task>,
                h': multiset<Task>, r': multiset<Task>)
    requires h' + r' == h + r
    ensures q + h' + r' + c == q + h + r + c
  {
    assert q + h' + r' == q + (h' + r');
    assert q + h + r == q + (h + r);
  }

  lemma Extend(r: multiset<Task>, l: multiset<Task>, p: multiset<Task>, t: Task)
    requires r == l + p
    ensures r + multiset{t} == l + (p + multiset{t})
  {
  }

  lemma HandOver(h: multiset<Task>, now: multiset<Task>, t: Task, h': multiset<Task>)
    requires h' + (multiset{t} + now) == h + now
    ensures h' + multiset{t} == h
  {
    forall u: Task
      ensures (h' + multiset{t})[u] == h[u]
    {
      assert (h' + (multiset{t} + now))[u] == (h + now)[u];
    }
  }

  lemma FinishKeepsInv(s: State, w: nat)
    requires Inv(s) && Enabled(s, Finish(w))
    ensures Inv(Apply(s, Finish(w)))
  {
    hide AllHeld, AllOpsPending, AllTaskPending, SumOps, Wrap, Descending;
    var s' := Apply(s, Finish(w));
    var Working(done, t, rest) := s.workers[w];
    FinishMoves(s, w);
    assert WorkerOk(s.workers[w]);
    Reassemble(s, s', w);
  }

  lemma LogAppend(log: seq<Task>, t: Task)
    ensures multiset(log + [t]) == multiset(log) + multiset{t}
    ensures SumOps(log + [t]) == SumOps(log) + t.ops
  {
    assert (log + [t])[..|log|] == log;
  }

  lemma OpsCounted(ws: seq<Worker>, w: nat)
    requires w < |ws| && ws[w].AddingOps? && ws[w].done != []
    ensures var ws' := ws[w := AddingTask(ws[w].done, ws[w].rest)];
            && AllHeld(ws') == AllHeld(ws)
            && AllTaskPending(ws') == AllTaskPending(ws)
            && AllOpsPending(ws') + multiset{Last(ws[w].done)} == AllOpsPending(ws)
  {
    var t := Last(ws[w].done);
    var was, now := ws[w], AddingTask(ws[w].done, ws[w].rest);
    var ws' := ws[w := now];
    WorkerReplaced(ws, w, now);
    assert Held(was) == Held(now) && TaskPending(was) == TaskPending(now);
    assert OpsPending(was) == multiset{t} && OpsPending(now) == multiset{};
    hide Held, OpsPending, TaskPending, AllHeld, AllOpsPending, AllTaskPending;
    Cancel(AllHeld(ws'), Held(was), AllHeld(ws));
    Cancel(AllTaskPending(ws'), TaskPending(was), AllTaskPending(ws));
  }

  lemma AddOpsMoves(s: State, w: nat)
    requires Conserved(s) && Enabled(s, AddOps(w))
    ensures Conserved(Apply(s, AddOps(w)))
  {
    hide Wrap, AllHeld, AllOpsPending, AllTaskPending;
    var s' := Apply(s, AddOps(w));
    var t := Last(s.workers[w].done);
    OpsCounted(s.workers, w);
    LogAppend(s.opsLog, t);
    Passes(AllOpsPending(s.workers), multiset(s.opsLog), t, AllOpsPending(s'.workers), multiset(s'.opsLog));
    Commute(s.run, multiset(s.opsLog), AllOpsPending(s.workers), multiset(s'.opsLog), AllOpsPending(s'.workers));
  }

  lemma AddOpsKeepsInv(s: State, w: nat)
    requires Inv(s) && Enabled(s, AddOps(w))
    ensures Inv(Apply(s, AddOps(w)))
  {
    hide AllHeld, AllOpsPending, AllTaskPending, SumOps, Wrap, Descending;
    var s' := Apply(s, AddOps(w));
    var t := Last(s.workers[w].done);
    LogAppend(s.opsLog, t);
    WrapAdds(SumOps(s.opsLog), t.ops);
    AddOpsMoves(s, w);
    assert WorkerOk(s.workers[w]);
    Reassemble(s, s', w);
  }

  lemma TaskCounted(ws: seq<Worker>, w: nat)
    requires w < |ws| && ws[w].AddingTask? && ws[w].done != []
    ensures var ws' := ws[w := AtTask(ws[w].done, ws[w].rest)];
            && AllHeld(ws') == AllHeld(ws)
            && AllOpsPending(ws') == AllOpsPending(ws)
            && AllTaskPending(ws') + multiset{Last(ws[w].done)} == AllTaskPending(ws)
  {
    var t := Last(ws[w].done);
    var was, now := ws[w], AtTask(ws[w].done, ws[w].rest);
    var ws' := ws[w := now];
    WorkerReplaced(ws, w, now);
    assert Held(was) == Held(now) && OpsPending(was) == OpsPending(now);
    assert TaskPending(was) == multiset{t} && TaskPending(now) == multiset{};
    hide Held, OpsPending, TaskPending, AllHeld, AllOpsPending, AllTaskPending;
    Cancel(AllHeld(ws'), Held(was), AllHeld(ws));
    Cancel(AllOpsPending(ws'), OpsPending(was), AllOpsPending(ws));
  }

  lemma AddTaskMoves(s: State, w: nat)
    requires Conserved(s) && Enabled(s, AddTask(w))
    ensures Conserved(Apply(s, AddTask(w)))
  {
    hide Wrap, AllHeld, AllOpsPending, AllTaskPending;
    var s' := Apply(s, AddTask(w));
    var t := Last(s.workers[w].done);
    TaskCounted(s.workers, w);
    LogAppend(s.taskLog, t);
    Passes(AllTaskPending(s.workers), multiset(s.taskLog), t, AllTaskPending(s'.workers), multiset(s'.taskLog));
    Commute(s.run, multiset(s.taskLog), AllTaskPending(s.workers), multiset(s'.taskLog), AllTaskPending(s'.workers));
  }

  lemma AddTaskKeepsInv(s: State, w: nat)
    requires Inv(s) && Enabled(s, AddTask(w))
    ensures Inv(Apply(s, AddTask(w)))
  {
    hide AllHeld, AllOpsPending, AllTaskPending, SumOps, Wrap, Descending;
    var s' := Apply(s, AddTask(w));
    var t := Last(s.workers[w].done);
    LogAppend(s.taskLog, t);
    WrapAdds(|s.taskLog|, 1);
    AddTaskMoves(s, w);
    assert WorkerOk(s.workers[w]);
    Reassemble(s, s', w);
  }

  lemma LeaveKeepsInv(s: State, w: nat)
    requires Inv(s) && Enabled(s, Leave(w))
    ensures Inv(Apply(s, Leave(w)))
  {
    hide AllHeld, AllOpsPending, AllTaskPending, SumOps, Wrap, Descending;
    var s' := Apply(s, Leave(w));
    HeldMoves(s, s', w, Outside);
    assert s.workers[w].done + [] == s.workers[w].done;
    NoOrder(Outside);
    Reassemble(s, s', w);
  }

  lemma StepKeepsInv(s: State, step: Step)
    requires Inv(s) && Enabled(s, step)
    ensures Inv(Apply(s, step))
  {
    hide Inv, Apply;
    match step
    case Submit(t) => SubmitKeepsInv(s, t);
    case Swap(w) => SwapKeepsInv(s, w);
    case Sort(w, order) => SortKeepsInv(s, w, order);
    case Start(w) => StartKeepsInv(s, w);
    case Finish(w) => FinishKeepsInv(s, w);
    case AddOps(w) => AddOpsKeepsInv(s, w);
    case AddTask(w) => AddTaskKeepsInv(s, w);
    case Leave(w) => LeaveKeepsInv(s, w);
    case Clear => ClearKeepsInv(s);
  }

  // ----- Over every run

  function Init(workers: nat): State {
    State([], seq(workers, _ => Outside), 0, 0, multiset{}, multiset{}, multiset{}, [], [], [])
  }

  ghost predicate Runs(s: State, steps: seq<Step>)
    decreases |steps|
  {
    steps == [] || (Enabled(s, steps[0]) && Runs(Apply(s, steps[0]), steps[1..]))
  }

  ghost function Final(s: State, steps: seq<Step>): State
    requires Runs(s, steps)
    decreases |steps|
  {
    if steps == [] then s else Final(Apply(s, steps[0]), steps[1..])
  }

  lemma {:induction false} RunKeepsInv(s: State, steps: seq<Step>)
    requires Inv(s) && Runs(s, steps)
    ensures Inv(Final(s, steps))
    decreases |steps|
  {
    hide Inv, Apply, Enabled;
    if steps != [] {
      StepKeepsInv(s, steps[0]);
      RunKeepsInv(Apply(s, steps[0]), steps[1..]);
    }
  }

  lemma {:induction false} TotalOfNothing(parts: seq<multiset<Task>>)
    requires forall i | 0 <= i < |parts| :: parts[i] == multiset{}
    ensures Total(parts) == multiset{}
  {
    if parts != [] { TotalOfNothing(parts[..|parts| - 1]); }
  }

  lemma NobodyHolds(ws: seq<Worker>)
    requires forall w | 0 <= w < |ws| :: ws[w].Outside?
    ensures AllHeld(ws) == AllOpsPending(ws) == AllTaskPending(ws) == multiset{}
  {
    TotalOfNothing(seq(|ws|, i requires 0 <= i < |ws| => Held(ws[i])));
    TotalOfNothing(seq(|ws|, i requires 0 <= i < |ws| => OpsPending(ws[i])));
    TotalOfNothing(seq(|ws|, i requires 0 <= i < |ws| => TaskPending(ws[i])));
  }

  lemma InitInv(workers: nat)
    ensures Inv(Init(workers))
  {
    NobodyHolds(Init(workers).workers);
  }

  ghost predicate Reached(s: State, workers: nat, steps: seq<Step>) {
    Runs(Init(workers), steps) && s == Final(Init(workers), steps)
  }

  lemma ReachedInv(s: State, workers: nat, steps: seq<Step>)
    requires Reached(s, workers, steps)
    ensures Inv(s)
  {
    InitInv(workers);
    RunKeepsInv(Init(workers), steps);
  }

  /** Conservation: every submitted task is in exactly one of four places, queued,
      held by a thread still to be run, run, or cleared; so none is lost and none
      runs twice, and nothing else ever runs. */
  lemma EveryTaskInOnePlace(s: State, workers: nat, steps: seq<Step>, t: Task)
    requires Reached(s, workers, steps)
    ensures multiset(s.queue)[t] + AllHeld(s.workers)[t] + s.run[t] + s.cleared[t]
            == (if t in s.submitted then 1 else 0)
  {
    ReachedInv(s, workers, steps);
    hide AllHeld, AllOpsPending, AllTaskPending;
    assert s.submitted[t] <= 1;
    assert s.submitted[t] == (multiset(s.queue) + AllHeld(s.workers) + s.run + s.cleared)[t];
  }

  /** Each batch is run in non-increasing priority, finished or not. */
  lemma BatchesDescend(s: State, workers: nat, steps: seq<Step>)
    requires Reached(s, workers, steps)
    ensures forall b | 0 <= b < |s.batches| :: Descending(s.batches[b])
    ensures forall w | 0 <= w < |s.workers| :: Descending(Order(s.workers[w]))
  {
    ReachedInv(s, workers, steps);
    forall w | 0 <= w < |s.workers|
      ensures Descending(Order(s.workers[w]))
    {
      assert WorkerOk(s.workers[w]);
    }
  }

  /** The counters hold what has been counted so far, never more than what was run;
      once no thread is processing, exactly the tasks run and their operations. */
  lemma CountersAreExact(s: State, workers: nat, steps: seq<Step>)
    requires Reached(s, workers, steps)
    ensures s.totalOps == Wrap(SumOps(s.opsLog)) && multiset(s.opsLog) <= s.run
    ensures s.totalTasks == Wrap(|s.taskLog|) && multiset(s.taskLog) <= s.run
    ensures (forall w | 0 <= w < |s.workers| :: s.workers[w].Outside?) ==>
              multiset(s.opsLog) == s.run && multiset(s.taskLog) == s.run && s.totalTasks == Wrap(|s.run|)
  {
    ReachedInv(s, workers, steps);
    if forall w | 0 <= w < |s.workers| :: s.workers[w].Outside? {
      NobodyHolds(s.workers);
      assert |multiset(s.taskLog)| == |s.taskLog|;
    }
  }

  /** The step a thread inside `process_queue` takes next; `order` is what the sort
      made of its batch. */
  function Next(w: nat, worker: Worker, order: seq<Task>): Step {
    match worker
    case Outside => Swap(w)
    case Swapped(_) => Sort(w, order)
    case AtTask(_, rest) => if rest == [] then Leave(w) else Start(w)
    case Working(_, _, _) => Finish(w)
    case AddingOps(_, _) => AddOps(w)
    case AddingTask(_, _) => AddTask(w)
  }

  /** Steps a thread has left before it leaves `process_queue`. */
  function StepsLeft(worker: Worker): nat {
    match worker
    case Outside => 0
    case Swapped(batch) => 4 * |batch| + 2
    case AtTask(_, rest) => 4 * |rest| + 1
    case Working(_, _, rest) => 4 * |rest| + 4
    case AddingOps(_, rest) => 4 * |rest| + 3
    case AddingTask(_, rest) => 4 * |rest| + 2
  }

  lemma OneStepNearer(s: State, w: nat, order: seq<Task>)
    requires IsWorker(s, w) && !s.workers[w].Outside? && WorkerOk(s.workers[w])
    requires s.workers[w].Swapped? ==>
               multiset(order) == multiset(s.workers[w].batch) && Descending(order)
    ensures var step := Next(w, s.workers[w], order);
            && Enabled(s, step)
            && StepsLeft(Apply(s, step).workers[w]) < StepsLeft(s.workers[w])
  {
    hide Wrap;
    if s.workers[w].Swapped? {
      assert |multiset(order)| == |order| && |multiset(s.workers[w].batch)| == |s.workers[w].batch|;
    }
  }

  /** A thread inside `process_queue` is never stuck and each of its steps brings it
      nearer to leaving, whatever the others do: its batch does not grow. */
  lemma ProcessingFinishes(s: State, workers: nat, steps: seq<Step>, w: nat, order: seq<Task>)
    requires Reached(s, workers, steps) && w < |s.workers| && !s.workers[w].Outside?
    requires s.workers[w].Swapped? ==>
               multiset(order) == multiset(s.workers[w].batch) && Descending(order)
    ensures var step := Next(w, s.workers[w], order);
            && Enabled(s, step)
            && StepsLeft(Apply(s, step).workers[w]) < StepsLeft(s.workers[w])
  {
    ReachedInv(s, workers, steps);
    assert WorkerOk(s.workers[w]);
    OneStepNearer(s, w, order);
  }
}
