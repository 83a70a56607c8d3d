/** What the handles of `Buffer` refer to when an operation on them is over, whatever
    operations on other handles interleave with it. */
module BufferContents {
  import opened Alignment
  import opened BufferProtocol
  import opened BufferSafety
  import opened Common

  /** The i-th byte a handle sees: its block and its place in it. */
  function ByteOf(r: Ref, i: nat): (nat, nat) { (r.block, r.off + i) }

  /** No operation is in progress on `h`. */
  ghost predicate Settled(s: State, h: nat) { h !in s.handles || s.handles[h].phase == Ready }

  /** The steps up to the moment the operation in progress on `h` is over. */
  ghost predicate Completes(s: State, rest: seq<Step>, h: nat)
    decreases |rest|
  {
    if rest == [] then Settled(s, h)
    else !Settled(s, h) && Enabled(s, rest[0]) && Completes(Apply(s, rest[0]), rest[1..], h)
  }

  lemma {:induction false} CompletingRuns(s: State, rest: seq<Step>, h: nat)
    requires Completes(s, rest, h)
    ensures Runs(s, rest)
    decreases |rest|
  {
    hide Apply, Enabled;
    if rest != [] { CompletingRuns(Apply(s, rest[0]), rest[1..], h); }
  }

  /** A reached state `s`, an operation on `h` begun there, and the state `t` where it is over;
      the steps in between are any of any handles. */
  ghost predicate Operation(s: State, steps: seq<Step>, op: Step, rest: seq<Step>, h: nat, t: State) {
    && Reached(s, steps) && Enabled(s, op) && NoWrap(op)
    && Completes(Apply(s, op), rest, h) && (forall i | 0 <= i < |rest| :: NoWrap(rest[i]))
    && Runs(Apply(s, op), rest) && t == Final(Apply(s, op), rest)
  }

  /** `h` is on its way to refer to `r`, from `src`, which refers to `r0`. */
  ghost predicate Underway(s: State, h: nat, src: nat, r0: Option<Ref>, r: Option<Ref>, moves: bool) {
    && h in s.handles && src in s.handles && src != h && s.handles[src] == Handle(r0, Ready)
    && match s.handles[h].phase
       case Ready => false
       case Adding(x) => x == src && s.handles[h].ref == r && !moves
       case Freeing(t) => r == r0 && t == (if moves then MoveFrom(src) else CopyFrom(src))
       case Dropping(t) => r == r0 && t == (if moves then MoveFrom(src) else CopyFrom(src))
       case Clearing(t) => r == r0 && t == (if moves then MoveFrom(src) else CopyFrom(src))
  }

  /** `h` refers to `r`; `src` is as it was, or null if it was moved from. */
  ghost predicate Over(s: State, h: nat, src: nat, r0: Option<Ref>, r: Option<Ref>, moves: bool) {
    && h in s.handles && src in s.handles && src != h
    && s.handles[h] == Handle(r, Ready)
    && s.handles[src] == Handle(if moves then None else r0, Ready)
  }

  /** The handles a step changes. */
  predicate Touches(s: State, step: Step, h: nat) {
    step.h == h || (step.MoveNew? && step.src == h)
    || (step.Clear? && step.h in s.handles && s.handles[step.h].phase == Clearing(MoveFrom(h)))
  }

  lemma UntouchedStays(s: State, step: Step, h: nat)
    requires Enabled(s, step) && h in s.handles && !Touches(s, step, h)
    ensures h in Apply(s, step).handles && Apply(s, step).handles[h] == s.handles[h]
  {
  }

  lemma SourceStays(s: State, step: Step, h: nat, src: nat, r0: Option<Ref>, r: Option<Ref>, moves: bool)
    requires Inv(s) && Underway(s, h, src, r0, r, moves) && Enabled(s, step) && step.h != h
    ensures !Touches(s, step, src)
  {
    assert Reader(s, h, src);
    if step.Clear? && step.h in s.handles && s.handles[step.h].phase == Clearing(MoveFrom(src)) {
      assert Reader(s, step.h, src) && Takes(s.handles[step.h].phase, src);
    }
  }

  lemma TargetStays(s: State, step: Step, h: nat)
    requires Inv(s) && Enabled(s, step) && step.h != h && h in s.handles && s.handles[h].phase != Ready
    ensures !Touches(s, step, h)
  {
    if step.Clear? && step.h in s.handles && s.handles[step.h].phase == Clearing(MoveFrom(h)) {
      assert Reader(s, step.h, h);
    }
  }

  lemma OtherStep(s: State, step: Step, h: nat, src: nat, r0: Option<Ref>, r: Option<Ref>, moves: bool)
    requires Inv(s) && Underway(s, h, src, r0, r, moves) && Enabled(s, step) && step.h != h
    ensures Underway(Apply(s, step), h, src, r0, r, moves)
  {
    SourceStays(s, step, h, src, r0, r, moves);
    TargetStays(s, step, h);
    UntouchedStays(s, step, src);
    UntouchedStays(s, step, h);
    hide Apply, Enabled, Inv;
  }

  lemma OwnStep(s: State, step: Step, h: nat, src: nat, r0: Option<Ref>, r: Option<Ref>, moves: bool)
    requires Underway(s, h, src, r0, r, moves) && Enabled(s, step) && step.h == h
    ensures Underway(Apply(s, step), h, src, r0, r, moves) || Over(Apply(s, step), h, src, r0, r, moves)
  {
  }

  lemma {:induction false} Carries(s: State, rest: seq<Step>, h: nat, src: nat,
                                   r0: Option<Ref>, r: Option<Ref>, moves: bool)
    requires Inv(s) && (Underway(s, h, src, r0, r, moves) || Over(s, h, src, r0, r, moves))
    requires Completes(s, rest, h) && Runs(s, rest) && forall i | 0 <= i < |rest| :: NoWrap(rest[i])
    ensures Over(Final(s, rest), h, src, r0, r, moves)
    decreases |rest|
  {
    hide Apply, Enabled, Inv;
    if rest != [] {
      var step := rest[0];
      StepKeepsInv(s, step);
      if step.h == h {
        OwnStep(s, step, h, src, r0, r, moves);
      } else {
        OtherStep(s, step, h, src, r0, r, moves);
      }
      Carries(Apply(s, step), rest[1..], h, src, r0, r, moves);
    }
  }

  lemma BeginsCopy(s: State, op: Step, h: nat, src: nat)
    requires Enabled(s, op) && (op == Copy(h, src) || op == Release(h, CopyFrom(src)))
    ensures src in s.handles
    ensures var s', r0 := Apply(s, op), s.handles[src].ref;
            Underway(s', h, src, r0, r0, false) || Over(s', h, src, r0, r0, false)
  {
  }

  lemma BeginsMove(s: State, op: Step, h: nat, src: nat)
    requires Enabled(s, op) && (op == MoveNew(h, src) || op == Release(h, MoveFrom(src)))
    ensures src in s.handles
    ensures var s', r0 := Apply(s, op), s.handles[src].ref;
            Underway(s', h, src, r0, r0, true) || Over(s', h, src, r0, r0, true)
  {
  }

  /** A finished copy, constructed or assigned, sees exactly what its source saw when the
      copying began, and the source still sees it. */
  lemma CopyRefersToSource(s: State, steps: seq<Step>, op: Step, rest: seq<Step>, h: nat, src: nat, t: State)
    requires Operation(s, steps, op, rest, h, t) && (op == Copy(h, src) || op == Release(h, CopyFrom(src)))
    ensures src in s.handles && src in t.handles && h in t.handles
    ensures t.handles[h].ref == t.handles[src].ref == s.handles[src].ref
    ensures t.handles[h].phase == t.handles[src].phase == Ready
  {
    ReachedInv(s, steps);
    StepKeepsInv(s, op);
    BeginsCopy(s, op, h, src);
    hide Apply, Enabled, Inv;
    var r0 := s.handles[src].ref;
    Carries(Apply(s, op), rest, h, src, r0, r0, false);
  }

  /** A finished move holds what its source held when it began, and the source is null. */
  lemma MoveTakesFromSource(s: State, steps: seq<Step>, op: Step, rest: seq<Step>, h: nat, src: nat, t: State)
    requires Operation(s, steps, op, rest, h, t) && (op == MoveNew(h, src) || op == Release(h, MoveFrom(src)))
    ensures src in s.handles && src in t.handles && h in t.handles
    ensures t.handles[h].ref == s.handles[src].ref && t.handles[src].ref == None
    ensures t.handles[h].phase == t.handles[src].phase == Ready
  {
    ReachedInv(s, steps);
    StepKeepsInv(s, op);
    BeginsMove(s, op, h, src);
    hide Apply, Enabled, Inv;
    var r0 := s.handles[src].ref;
    Carries(Apply(s, op), rest, h, src, r0, r0, true);
  }

  lemma BeginsSlice(s: State, h: nat, src: nat, offset: nat, count: nat)
    requires Enabled(s, Slice(h, src, offset, count))
    ensures src in s.handles
    ensures var s', r0 := Apply(s, Slice(h, src, offset, count)), s.handles[src].ref;
            var r := Sliced(r0, offset, count);
            Underway(s', h, src, r0, r, false) || Over(s', h, src, r0, r, false)
  {
  }

  lemma SlicedBytes(r0: Option<Ref>, offset: nat, count: nat)
    requires offset + count <= SIZE_MAX
    ensures var r := Sliced(r0, offset, count);
            && (r.None? <==> r0.None? || offset + count > r0.value.size)
            && (r.Some? ==> r.value.size == count && r0.Some?
                            && forall i: nat | i < count :: ByteOf(r.value, i) == ByteOf(r0.value, offset + i))
  {
    assert (offset + count) % WORD == offset + count;
  }

  /** A finished slice is null exactly if its source was or the range did not fit, and otherwise
      sees as its i-th byte the byte its source saw at offset + i; the source is unchanged. So
      offsets add up through slices of slices. */
  lemma SliceShowsRange(s: State, steps: seq<Step>, rest: seq<Step>, h: nat, src: nat,
                        offset: nat, count: nat, t: State)
    requires Operation(s, steps, Slice(h, src, offset, count), rest, h, t)
    ensures src in s.handles && src in t.handles && h in t.handles && t.handles[h].phase == Ready
    ensures t.handles[src].ref == s.handles[src].ref
    ensures var r0, r := s.handles[src].ref, t.handles[h].ref;
            && (r.None? <==> r0.None? || offset + count > r0.value.size)
            && (r.Some? ==> r.value.size == count && r0.Some?
                            && forall i: nat | i < count :: ByteOf(r.value, i) == ByteOf(r0.value, offset + i))
  {
    var op := Slice(h, src, offset, count);
    ReachedInv(s, steps);
    StepKeepsInv(s, op);
    BeginsSlice(s, h, src, offset, count);
    hide Apply, Enabled, Inv;
    var r0 := s.handles[src].ref;
    SlicedBytes(r0, offset, count);
    hide Sliced;
    Carries(Apply(s, op), rest, h, src, r0, Sliced(r0, offset, count), false);
  }

  // ----- Construction and destruction

  /** A new buffer sees all of its block, from the first byte on; none at all for size 0. */
  lemma NewShowsItsBlock(s: State, h: nat, block: nat, bytes: nat)
    requires Enabled(s, New(h, block, bytes))
    ensures var t := Apply(s, New(h, block, bytes));
            && h in t.handles && t.handles[h].phase == Ready
            && (t.handles[h].ref.None? <==> bytes == 0)
            && (block in t.blocks <==> bytes > 0)
            && (bytes > 0 ==> var r := t.handles[h].ref.value;
                  r.size == t.blocks[block].size == bytes
                  && forall i: nat | i < bytes :: ByteOf(r, i) == (block, i))
  {
  }

  /** On the way out of existence. */
  ghost predicate Leaving(s: State, h: nat) {
    && h in s.handles
    && (s.handles[h].phase == Freeing(Destroy) || s.handles[h].phase == Dropping(Destroy)
        || s.handles[h].phase == Clearing(Destroy))
  }

  lemma LeavingStep(s: State, step: Step, h: nat)
    requires Inv(s) && Leaving(s, h) && Enabled(s, step)
    ensures Leaving(Apply(s, step), h) || h !in Apply(s, step).handles
  {
    if step.h != h {
      TargetStays(s, step, h);
      UntouchedStays(s, step, h);
    }
  }

  lemma {:induction false} LeavesAlong(s: State, rest: seq<Step>, h: nat)
    requires Inv(s) && (Leaving(s, h) || h !in s.handles)
    requires Completes(s, rest, h) && Runs(s, rest) && forall i | 0 <= i < |rest| :: NoWrap(rest[i])
    ensures h !in Final(s, rest).handles
    decreases |rest|
  {
    hide Apply, Enabled, Inv;
    if rest != [] {
      StepKeepsInv(s, rest[0]);
      LeavingStep(s, rest[0], h);
      LeavesAlong(Apply(s, rest[0]), rest[1..], h);
    }
  }

  /** A destructor that has finished leaves no handle behind. */
  lemma DestroyedIsGone(s: State, steps: seq<Step>, rest: seq<Step>, h: nat, t: State)
    requires Operation(s, steps, Release(h, Destroy), rest, h, t)
    ensures h !in t.handles
  {
    ReachedInv(s, steps);
    StepKeepsInv(s, Release(h, Destroy));
    assert Leaving(Apply(s, Release(h, Destroy)), h);
    hide Apply, Enabled, Inv;
    LeavesAlong(Apply(s, Release(h, Destroy)), rest, h);
  }

  // ----- What can always begin

  /** With no operation in progress every operation of the class can begin: on any handle, with any
      other handle as its source, and for a handle and block that do not exist yet. */
  lemma OperationsCanBegin(s: State, steps: seq<Step>, h: nat, src: nat, fresh_: nat, block: nat,
                           bytes: nat, offset: nat, count: nat)
    requires Reached(s, steps) && forall g | g in s.handles :: s.handles[g].phase == Ready
    requires h in s.handles && src in s.handles && h != src && fresh_ !in s.handles && block !in s.blocks
    requires offset <= SIZE_MAX && count <= SIZE_MAX
    ensures Enabled(s, New(fresh_, block, bytes)) && Enabled(s, Copy(fresh_, src))
    ensures Enabled(s, Slice(fresh_, src, offset, count)) && Enabled(s, MoveNew(fresh_, src))
    ensures Enabled(s, Release(h, Destroy)) && Enabled(s, Release(h, CopyFrom(src)))
    ensures Enabled(s, Release(h, MoveFrom(src)))
  {
    ReachedInv(s, steps);
    assert HandleOk(s, h);
  }
}
