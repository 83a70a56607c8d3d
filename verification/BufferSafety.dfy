/** What every run of the `Buffer` protocol guarantees. */
module BufferSafety {
  import opened Common
  import opened BufferProtocol

  ghost predicate Reached(s: State, steps: seq<Step>) {
    && Runs(START, steps)
    && (forall i | 0 <= i < |steps| :: NoWrap(steps[i]))
    && s == Final(START, steps)
  }

  lemma ReachedInv(s: State, steps: seq<Step>)
    requires Reached(s, steps)
    ensures Inv(s)
  {
    RunKeepsInv(START, steps);
  }

  /** Each counter equals the number of handles that own its block, the memory and
      the counter are released at most once, and neither before the last owner has
      gone. */
  lemma CounterCountsOwners(s: State, steps: seq<Step>, b: nat)
    requires Reached(s, steps) && b in s.blocks
    ensures var bl := s.blocks[b];
            && bl.count == |Owners(s, b)|
            && 0 <= bl.deletes <= bl.frees <= 1
            && (bl.frees == 1 ==> Owners(s, b) == {})
  {
    ReachedInv(s, steps);
    assert BlockOk(s, b);
    if s.blocks[b].count == 0 && !Finished(s.blocks[b]) {
      var h :| LastOwner(s, h, b);
    }
  }

  /** A handle that is in use, or being filled from another one, refers to memory
      and a counter that are still there, inside the block's bounds. A slice of a
      slice is one of them. */
  lemma NoHandleToFreedBlock(s: State, steps: seq<Step>, h: nat)
    requires Reached(s, steps) && h in s.handles && s.handles[h].ref.Some?
    requires s.handles[h].phase.Ready? || s.handles[h].phase.Adding?
    ensures var r := s.handles[h].ref.value;
            && r.block in s.blocks
            && s.blocks[r.block].frees == 0 && s.blocks[r.block].deletes == 0
            && r.off + r.size <= s.blocks[r.block].size
  {
    ReachedInv(s, steps);
    assert HandleOk(s, h);
    var b := s.handles[h].ref.value.block;
    var owner := if s.handles[h].phase.Ready? then h else s.handles[h].phase.src;
    assert owner in Owners(s, b);
    assert BlockOk(s, b);
  }

  /** Once no operation is in progress, a block has been released, exactly once, if
      and only if no handle refers to it. */
  lemma FreedExactlyWhenUnreferenced(s: State, steps: seq<Step>, b: nat)
    requires Reached(s, steps) && b in s.blocks
    requires forall h | h in s.handles :: s.handles[h].phase == Ready
    ensures var bl := s.blocks[b];
            var referred := exists h :: h in s.handles && s.handles[h].ref.Some? && s.handles[h].ref.value.block == b;
            if referred then bl.frees == 0 && bl.deletes == 0 else bl.frees == 1 && bl.deletes == 1
  {
    ReachedInv(s, steps);
    assert BlockOk(s, b);
    if h :| h in s.handles && s.handles[h].ref.Some? && s.handles[h].ref.value.block == b {
      assert h in Owners(s, b);
    } else {
      assert Owners(s, b) == {};
      assert forall h :: !Ends(s, h, b);
    }
  }

  /** The memory is handed back only while it is still held and nobody owns it, the
      counter only after that; no other handle is about to do the same. */
  lemma ReleaseStepsAreExclusive(s: State, steps: seq<Step>, step: Step)
    requires Reached(s, steps) && Enabled(s, step) && (step.Free? || step.Drop?)
    ensures var b := s.handles[step.h].ref.value.block;
            && Owners(s, b) == {}
            && s.blocks[b].frees == (if step.Free? then 0 else 1)
            && s.blocks[b].deletes == 0
            && forall g | Ends(s, g, b) :: g == step.h
  {
    ReachedInv(s, steps);
    var b := s.handles[step.h].ref.value.block;
    assert HandleOk(s, step.h) && Ends(s, step.h, b) && BlockOk(s, b);
    assert LastOwner(s, step.h, b);
  }

  /** The step that goes on with the operation in progress on `h`. */
  function Next(h: nat, p: Phase): Step
    requires p != Ready
  {
    match p
    case Adding(_) => Add(h)
    case Freeing(_) => Free(h)
    case Dropping(_) => Drop(h)
    case Clearing(_) => Clear(h)
  }

  function Left(p: Phase): nat {
    match p
    case Ready => 0
    case Adding(_) => 1
    case Clearing(_) => 2
    case Dropping(_) => 3
    case Freeing(_) => 4
  }

  /** An operation in progress is never stuck, and every step of it brings its end
      nearer: at most five steps after its start the handle is ready or gone. */
  lemma OperationsFinish(s: State, steps: seq<Step>, h: nat)
    requires Reached(s, steps) && h in s.handles && s.handles[h].phase != Ready
    ensures var step := Next(h, s.handles[h].phase);
            && Enabled(s, step)
            && (h in Apply(s, step).handles ==>
                  Left(Apply(s, step).handles[h].phase) < Left(s.handles[h].phase))
  {
    ReachedInv(s, steps);
    assert HandleOk(s, h);
    if s.handles[h].phase.Clearing? {
      var t := s.handles[h].phase.then_;
      if !t.Destroy? { assert Reader(s, h, t.src); }
    }
  }
}
