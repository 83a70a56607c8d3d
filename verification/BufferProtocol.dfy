/** The reference-counting protocol of `Buffer` as a step machine. Every increment
    and decrement of a counter, every deallocation and every deletion of a counter
    is a step of its own, and operations on different handles interleave freely.
    What the machine demands is what C++ demands: nobody touches a handle while an
    operation is changing it, and a handle being read from stays put meanwhile. */
module BufferProtocol {
  import opened Common
  import opened Alignment

  /** The range of a block a handle sees. */
  datatype Ref = Ref(block: nat, off: nat, size: nat)

  /** What an operation does once it has let go of the handle's old block. */
  datatype Then = Destroy | CopyFrom(src: nat) | MoveFrom(src: nat)

  /** How far the operation in progress on a handle has come. */
  datatype Phase =
    | Ready
    | Adding(src: nat)       // fields copied from src, increment still to come
    | Freeing(then_: Then)   // the decrement returned 1: memory to be deallocated
    | Dropping(then_: Then)  // memory deallocated, counter to be deleted
    | Clearing(then_: Then)  // own fields to be nulled

  datatype Handle = Handle(ref: Option<Ref>, phase: Phase)

  /** `frees` and `deletes` say how often the memory and the counter were released. */
  datatype Block = Block(size: nat, count: int, frees: nat, deletes: nat)

  datatype State = State(handles: map<nat, Handle>, blocks: map<nat, Block>)

  datatype Step =
    | New(h: nat, block: nat, bytes: nat)
    | Copy(h: nat, src: nat)
    | Slice(h: nat, src: nat, offset: nat, count: nat)
    | MoveNew(h: nat, src: nat)
    | Add(h: nat)
    | Release(h: nat, then_: Then)
    | Free(h: nat)
    | Drop(h: nat)
    | Clear(h: nat)

  predicate Reads(p: Phase, src: nat) {
    match p
    case Ready => false
    case Adding(s) => s == src
    case Freeing(t) => ThenReads(t, src)
    case Dropping(t) => ThenReads(t, src)
    case Clearing(t) => ThenReads(t, src)
  }

  predicate ThenReads(t: Then, src: nat) {
    (t.CopyFrom? || t.MoveFrom?) && t.src == src
  }

  predicate Takes(p: Phase, src: nat) {
    (p.Freeing? || p.Dropping? || p.Clearing?) && p.then_ == MoveFrom(src)
  }

  /** Nothing in progress on `h`, and nothing reading from it. */
  ghost predicate Idle(s: State, h: nat) {
    && h in s.handles && s.handles[h].phase == Ready
    && forall g | g in s.handles :: !Reads(s.handles[g].phase, h)
  }

  /** Nothing in progress on `h`, and nobody about to move from it. */
  ghost predicate Readable(s: State, h: nat) {
    && h in s.handles && s.handles[h].phase == Ready
    && forall g | g in s.handles :: !Takes(s.handles[g].phase, h)
  }

  ghost predicate ThenOk(s: State, h: nat, t: Then) {
    match t
    case Destroy => true
    case CopyFrom(src) => src != h && Readable(s, src)
    case MoveFrom(src) => src != h && Idle(s, src)
  }

  ghost predicate Enabled(s: State, step: Step) {
    match step
    case New(h, b, bytes) => h !in s.handles && b !in s.blocks
    case Copy(h, src) => h !in s.handles && Readable(s, src)
    case Slice(h, src, offset, count) =>
      h !in s.handles && Readable(s, src) && offset <= SIZE_MAX && count <= SIZE_MAX
    case MoveNew(h, src) => h !in s.handles && Idle(s, src)
    case Add(h) =>
      h in s.handles && s.handles[h].phase.Adding? && s.handles[h].ref.Some?
      && s.handles[h].ref.value.block in s.blocks
    case Release(h, t) =>
      Idle(s, h) && ThenOk(s, h, t)
      && (s.handles[h].ref.Some? ==> s.handles[h].ref.value.block in s.blocks)
    case Free(h) =>
      h in s.handles && s.handles[h].phase.Freeing? && s.handles[h].ref.Some?
      && s.handles[h].ref.value.block in s.blocks
    case Drop(h) =>
      h in s.handles && s.handles[h].phase.Dropping? && s.handles[h].ref.Some?
      && s.handles[h].ref.value.block in s.blocks
    case Clear(h) =>
      h in s.handles && s.handles[h].phase.Clearing?
      && var t := s.handles[h].phase.then_;
         t.Destroy? || t.src in s.handles
  }

  /** A handle that starts out with `src`'s fields: to be counted unless null. */
  function Copied(ref: Option<Ref>, src: nat): Handle {
    Handle(ref, if ref.Some? then Adding(src) else Ready)
  }

  /** `slice`: the bound is tested on the machine sum of offset and count. */
  function Sliced(ref: Option<Ref>, offset: nat, count: nat): Option<Ref> {
    match ref
    case None => None
    case Some(r) =>
      if !SliceAccepts(r.size, offset, count) then None
      else Some(Ref(r.block, r.off + offset, count))
  }

  ghost function Apply(s: State, step: Step): State
    requires Enabled(s, step)
  {
    match step
    case New(h, b, bytes) =>
      if bytes == 0 then s.(handles := s.handles[h := Handle(None, Ready)])
      else State(s.handles[h := Handle(Some(Ref(b, 0, bytes)), Ready)],
                 s.blocks[b := Block(bytes, 1, 0, 0)])
    case Copy(h, src) =>
      s.(handles := s.handles[h := Copied(s.handles[src].ref, src)])
    case Slice(h, src, offset, count) =>
      s.(handles := s.handles[h := Copied(Sliced(s.handles[src].ref, offset, count), src)])
    case MoveNew(h, src) =>
      s.(handles := s.handles[h := s.handles[src]][src := Handle(None, Ready)])
    case Add(h) =>
      var b := s.handles[h].ref.value.block;
      State(s.handles[h := s.handles[h].(phase := Ready)],
            s.blocks[b := s.blocks[b].(count := s.blocks[b].count + 1)])
    case Release(h, t) =>
      (match s.handles[h].ref
       case None => s.(handles := s.handles[h := Handle(None, Clearing(t))])
       case Some(r) =>
         var was := s.blocks[r.block].count;
         State(s.handles[h := Handle(Some(r), if was == 1 then Freeing(t) else Clearing(t))],
               s.blocks[r.block := s.blocks[r.block].(count := was - 1)]))
    case Free(h) =>
      var b := s.handles[h].ref.value.block;
      State(s.handles[h := s.handles[h].(phase := Dropping(s.handles[h].phase.then_))],
            s.blocks[b := s.blocks[b].(frees := s.blocks[b].frees + 1)])
    case Drop(h) =>
      var b := s.handles[h].ref.value.block;
      State(s.handles[h := s.handles[h].(phase := Clearing(s.handles[h].phase.then_))],
            s.blocks[b := s.blocks[b].(deletes := s.blocks[b].deletes + 1)])
    case Clear(h) =>
      (match s.handles[h].phase.then_
       case Destroy => s.(handles := s.handles - {h})
       case CopyFrom(src) => s.(handles := s.handles[h := Copied(s.handles[src].ref, src)])
       case MoveFrom(src) =>
         s.(handles := s.handles[h := Handle(s.handles[src].ref, Ready)][src := Handle(None, Ready)]))
  }

  const START := State(map[], map[])

  ghost predicate Runs(s: State, steps: seq<Step>)
    decreases |steps|
  {
    steps == [] || (Enabled(s, steps[0]) && Runs(Apply(s, steps[0]), steps[1..]))
  }

  ghost function Final(s: State, steps: seq<Step>): State
    requires Runs(s, steps)
    decreases |steps|
  {
    if steps == [] then s else Final(Apply(s, steps[0]), steps[1..])
  }

  /** No slice of the run adds up past a machine word. */
  predicate NoWrap(step: Step) {
    step.Slice? ==> step.offset + step.count <= SIZE_MAX
  }

  predicate SliceAccepts(size: nat, offset: nat, count: nat) { (offset + count) % WORD <= size }

  /** The bound test of `slice` is sound for buffers of every size exactly when
      offset and count add up within a machine word. */
  lemma SliceCheckExact(offset: nat, count: nat)
    requires offset <= SIZE_MAX && count <= SIZE_MAX
    ensures (forall size: nat :: SliceAccepts(size, offset, count) ==> offset + count <= size)
            <==> offset + count <= SIZE_MAX
  {
    if offset + count > SIZE_MAX {
      var size := offset + count - WORD;
      assert SliceAccepts(size, offset, count);
    } else {
      assert (offset + count) % WORD == offset + count;
    }
  }

  /** What is accepted fits, or its machine sum wraps. */
  lemma AcceptedSlice(size: nat, offset: nat, count: nat)
    requires size <= SIZE_MAX && offset <= SIZE_MAX && count <= SIZE_MAX
    ensures offset + count <= SIZE_MAX ==> (SliceAccepts(size, offset, count) <==> offset + count <= size)
  {
  }

  /** Eight bytes, sliced at 2^64 - 8 for 16 bytes: accepted, and outside. */
  lemma WrappedSliceEscapes()
    ensures Sliced(Some(Ref(0, 0, 8)), WORD - 8, 16) == Some(Ref(0, WORD - 8, 16))
  {
  }

  // ----- What holds in every reachable state

  /** The handle owns one unit of its block's counter. */
  predicate Counted(hd: Handle) { hd.phase == Ready && hd.ref.Some? }

  ghost predicate Owns(s: State, h: nat, b: nat) {
    h in s.handles && Counted(s.handles[h]) && s.handles[h].ref.value.block == b
  }

  ghost function Owners(s: State, b: nat): set<nat> {
    set h | h in s.handles && Owns(s, h, b)
  }

  /** `h` is about to release block `b`. */
  ghost predicate Ends(s: State, h: nat, b: nat) {
    && h in s.handles && (s.handles[h].phase.Freeing? || s.handles[h].phase.Dropping?)
    && s.handles[h].ref.Some? && s.handles[h].ref.value.block == b
  }

  ghost predicate Reader(s: State, h: nat, src: nat) {
    h in s.handles && Reads(s.handles[h].phase, src)
  }

  ghost predicate HandleOk(s: State, h: nat)
    requires h in s.handles
  {
    var hd := s.handles[h];
    && (hd.ref.Some? ==> hd.ref.value.block in s.blocks)
    && (hd.phase.Adding? || hd.phase.Freeing? || hd.phase.Dropping? ==> hd.ref.Some?)
    && (hd.ref.Some? && (hd.phase.Ready? || hd.phase.Adding?) ==>
          hd.ref.value.off + hd.ref.value.size <= s.blocks[hd.ref.value.block].size)
    && (hd.phase.Adding? ==> Owns(s, hd.phase.src, hd.ref.value.block))
  }

  ghost predicate BorrowsOk(s: State) {
    && (forall h, src | Reader(s, h, src) :: src != h && src in s.handles && s.handles[src].phase == Ready)
    && (forall h, g, src | Reader(s, h, src) && Reader(s, g, src) && Takes(s.handles[h].phase, src) :: g == h)
  }

  ghost predicate BlockOk(s: State, b: nat)
    requires b in s.blocks
  {
    var bl := s.blocks[b];
    && bl.count == |Owners(s, b)|
    && (bl.count > 0 ==> bl.frees == 0 && bl.deletes == 0 && forall h :: !Ends(s, h, b))
    && (bl.count == 0 && !Finished(bl) ==> exists h :: LastOwner(s, h, b))
    && (Finished(bl) ==> forall h :: !Ends(s, h, b))
  }

  predicate Finished(bl: Block) { bl.count == 0 && bl.frees == 1 && bl.deletes == 1 }

  /** `h` alone is left to release block `b`, and has come as far as its phase says. */
  ghost predicate LastOwner(s: State, h: nat, b: nat)
    requires b in s.blocks
  {
    && Ends(s, h, b)
    && s.blocks[b].deletes == 0
    && s.blocks[b].frees == (if s.handles[h].phase.Freeing? then 0 else 1)
    && forall g | Ends(s, g, b) :: g == h
  }

  ghost predicate Inv(s: State) {
    && (forall h | h in s.handles :: HandleOk(s, h))
    && BorrowsOk(s)
    && (forall b | b in s.blocks :: BlockOk(s, b))
  }

  // ----- Frame lemmas

  /** A block whose owners and releasers did not change stays as it was. */
  lemma UntouchedBlock(s: State, s': State, b: nat)
    requires b in s.blocks && BlockOk(s, b) && b in s'.blocks && s'.blocks[b] == s.blocks[b]
    requires forall h :: Owns(s', h, b) <==> Owns(s, h, b)
    requires forall h :: Ends(s', h, b) <==> Ends(s, h, b)
    requires forall h :: Ends(s, h, b) && Ends(s', h, b) ==> s'.handles[h].phase.Freeing? == s.handles[h].phase.Freeing?
    ensures BlockOk(s', b)
  {
    assert Owners(s', b) == Owners(s, b);
    if s.blocks[b].count == 0 && !Finished(s.blocks[b]) {
      var h :| LastOwner(s, h, b);
      assert LastOwner(s', h, b);
    }
  }

  lemma NothingRefersToAbsentBlock(s: State, b: nat)
    requires Inv(s) && b !in s.blocks
    ensures forall h :: !Owns(s, h, b) && !Ends(s, h, b)
  {
    forall h
      ensures !Owns(s, h, b) && !Ends(s, h, b)
    {
      assert h in s.handles ==> HandleOk(s, h);
    }
  }

  lemma NobodyReads(s: State, h: nat)
    requires BorrowsOk(s) && (h !in s.handles || s.handles[h].phase != Ready)
    ensures forall g :: !Reader(s, g, h)
  {
  }

  /** Replacing a handle nobody reads, on the same blocks, leaves the others well. */
  lemma OtherHandlesOk(s: State, s': State, h: nat)
    requires Inv(s)
    requires forall g :: !Reader(s, g, h)
    requires forall g | g != h :: g in s'.handles <==> g in s.handles
    requires forall g | g != h && g in s.handles :: s'.handles[g] == s.handles[g]
    requires s.blocks.Keys <= s'.blocks.Keys
    requires forall b | b in s.blocks :: s'.blocks[b].size == s.blocks[b].size
    ensures forall g | g in s'.handles && g != h :: HandleOk(s', g)
  {
    forall g | g in s'.handles && g != h
      ensures HandleOk(s', g)
    {
      assert HandleOk(s, g);
      if s.handles[g].phase.Adding? { assert Reader(s, g, s.handles[g].phase.src); }
    }
  }

  /** `h` reads at most `src`, nothing reads `h`, the others read as before. */
  lemma BorrowsKept(s: State, s': State, h: nat)
    requires BorrowsOk(s)
    requires forall g :: !Reader(s, g, h)
    requires forall g | g != h :: g in s'.handles <==> g in s.handles
    requires forall g | g != h && g in s.handles :: s'.handles[g] == s.handles[g]
    requires forall src | Reader(s', h, src) ::
               && src != h && src in s.handles && s.handles[src].phase == Ready
               && forall g | g != h && Reader(s, g, src) ::
                    !Takes(s.handles[g].phase, src) && !Takes(s'.handles[h].phase, src)
    ensures BorrowsOk(s')
  {
    assert forall g, src | g != h :: Reader(s', g, src) <==> Reader(s, g, src);
    forall g, src | Reader(s', g, src)
      ensures src != g && src in s'.handles && s'.handles[src].phase == Ready
    {
      if g != h { assert Reader(s, g, src); }
    }
    forall f, g, src | Reader(s', f, src) && Reader(s', g, src) && Takes(s'.handles[f].phase, src)
      ensures g == f
    {
      if f != h { assert Reader(s, f, src); }
      if g != h { assert Reader(s, g, src); }
    }
  }

  // ----- Every step keeps the invariant

  lemma NewKeepsInv(s: State, step: Step)
    requires Inv(s) && step.New? && Enabled(s, step)
    ensures Inv(Apply(s, step))
  {
    var s' := Apply(s, step);
    NobodyReads(s, step.h);
    OtherHandlesOk(s, s', step.h);
    BorrowsKept(s, s', step.h);
    NothingRefersToAbsentBlock(s, step.block);
    forall b | b in s.blocks
      ensures BlockOk(s', b)
    {
      UntouchedBlock(s, s', b);
    }
    if step.bytes > 0 {
      assert forall g :: Owns(s', g, step.block) <==> g == step.h;
      assert Owners(s', step.block) == {step.h};
      assert BlockOk(s', step.block);
    }
  }

  /** `h`, uncounted before and after, becomes a copy of (a part of) `src`. */
  lemma StartAddingKeepsInv(s: State, s': State, h: nat, ref: Option<Ref>, src: nat)
    requires Inv(s) && src != h && Readable(s, src)
    requires h !in s.handles || s.handles[h].phase.Clearing?
    requires s' == s.(handles := s.handles[h := Copied(ref, src)])
    requires ref.Some? ==> s.handles[src].ref.Some? && ref.value.block == s.handles[src].ref.value.block
                           && ref.value.off + ref.value.size
                              <= s.handles[src].ref.value.off + s.handles[src].ref.value.size
    ensures Inv(s')
  {
    hide BlockOk;
    NobodyReads(s, h);
    OtherHandlesOk(s, s', h);
    assert forall x :: Reader(s', h, x) ==> x == src;
    assert forall g | Reader(s, g, src) :: !Takes(s.handles[g].phase, src);
    BorrowsKept(s, s', h);
    assert HandleOk(s, src);
    assert HandleOk(s', h);
    forall b | b in s.blocks
      ensures BlockOk(s', b)
    {
      UntouchedBlock(s, s', b);
    }
  }

  lemma AddKeepsBlock(s: State, h: nat, b: nat)
    requires Inv(s) && Enabled(s, Add(h)) && b == s.handles[h].ref.value.block
    ensures BlockOk(Apply(s, Add(h)), b)
  {
    var s' := Apply(s, Add(h));
    assert HandleOk(s, h) && BlockOk(s, b);
    assert s.handles[h].phase.src in Owners(s, b);
    assert forall g :: Owns(s', g, b) <==> g == h || Owns(s, g, b);
    assert Owners(s', b) == Owners(s, b) + {h} && h !in Owners(s, b);
    assert forall g :: Ends(s', g, b) ==> Ends(s, g, b);
  }

  lemma AddKeepsInv(s: State, step: Step)
    requires Inv(s) && step.Add? && Enabled(s, step)
    ensures Inv(Apply(s, step))
  {
    var s' := Apply(s, step);
    var h := step.h;
    var b := s.handles[h].ref.value.block;
    assert HandleOk(s, h);
    NobodyReads(s, h);
    OtherHandlesOk(s, s', h);
    BorrowsKept(s, s', h);
    forall c | c in s.blocks
      ensures BlockOk(s', c)
    {
      if c == b {
        AddKeepsBlock(s, h, b);
      } else {
        UntouchedBlock(s, s', c);
      }
    }
  }

  /** The decrement of a counted handle: the block loses an owner, and if that was
      the last one, `h` is left to release the block. */
  lemma DecrementKeepsBlock(s: State, s': State, h: nat, b: nat, t: Then)
    requires Inv(s) && Owns(s, h, b) && b in s.blocks && b in s'.blocks
    requires s'.handles
          == s.handles[h := Handle(s.handles[h].ref, if s.blocks[b].count == 1 then Freeing(t) else Clearing(t))]
    requires s'.blocks[b] == s.blocks[b].(count := s.blocks[b].count - 1)
    ensures BlockOk(s', b)
  {
    assert h in Owners(s, b);
    assert Owners(s', b) == Owners(s, b) - {h};
    assert BlockOk(s, b);
    assert forall g | g != h :: !Ends(s', g, b) by {
      assert forall g | g != h :: Ends(s', g, b) ==> Ends(s, g, b);
    }
    if s.blocks[b].count == 1 {
      assert LastOwner(s', h, b);
    }
  }

  lemma ReleaseKeepsInv(s: State, step: Step)
    requires Inv(s) && step.Release? && Enabled(s, step)
    ensures Inv(Apply(s, step))
  {
    hide BlockOk;
    var s' := Apply(s, step);
    var h := step.h;
    assert HandleOk(s, h);
    OtherHandlesOk(s, s', h);
    assert HandleOk(s', h);
    ReleaseKeepsBorrows(s, s', h, step.then_);
    forall c | c in s.blocks
      ensures BlockOk(s', c)
    {
      if Owns(s, h, c) {
        DecrementKeepsBlock(s, s', h, c, step.then_);
      } else {
        UntouchedBlock(s, s', c);
      }
    }
  }

  lemma ReleaseKeepsBorrows(s: State, s': State, h: nat, t: Then)
    requires Inv(s) && Idle(s, h) && ThenOk(s, h, t)
    requires exists p :: p in [Freeing(t), Clearing(t)] && s'.handles == s.handles[h := Handle(s.handles[h].ref, p)]
    ensures BorrowsOk(s')
  {
    assert forall x :: Reader(s', h, x) <==> ThenReads(t, x);
    BorrowsKept(s, s', h);
  }

  /** Releasing the memory, then the counter: only the last owner gets there. */
  lemma FreeKeepsBlock(s: State, h: nat, b: nat)
    requires Inv(s) && Enabled(s, Free(h)) && b == s.handles[h].ref.value.block
    ensures BlockOk(Apply(s, Free(h)), b)
  {
    var s' := Apply(s, Free(h));
    assert BlockOk(s, b) && Ends(s, h, b);
    assert LastOwner(s, h, b);
    assert forall g :: Ends(s', g, b) ==> Ends(s, g, b);
    assert Owners(s', b) == Owners(s, b) by {
      assert forall g :: Owns(s', g, b) <==> Owns(s, g, b);
    }
    assert LastOwner(s', h, b);
  }

  lemma DropKeepsBlock(s: State, h: nat, b: nat)
    requires Inv(s) && Enabled(s, Drop(h)) && b == s.handles[h].ref.value.block
    ensures BlockOk(Apply(s, Drop(h)), b)
  {
    var s' := Apply(s, Drop(h));
    assert BlockOk(s, b) && Ends(s, h, b);
    assert LastOwner(s, h, b);
    assert forall g :: Ends(s', g, b) ==> Ends(s, g, b);
    assert Owners(s', b) == Owners(s, b) by {
      assert forall g :: Owns(s', g, b) <==> Owns(s, g, b);
    }
    assert Finished(s'.blocks[b]);
  }

  lemma FreeOrDropKeepsInv(s: State, step: Step)
    requires Inv(s) && (step.Free? || step.Drop?) && Enabled(s, step)
    ensures Inv(Apply(s, step))
  {
    hide BlockOk;
    var s' := Apply(s, step);
    var h := step.h;
    var b := s.handles[h].ref.value.block;
    assert HandleOk(s, h);
    NobodyReads(s, h);
    OtherHandlesOk(s, s', h);
    assert forall x :: Reader(s', h, x) <==> Reader(s, h, x);
    BorrowsKept(s, s', h);
    forall c | c in s.blocks
      ensures BlockOk(s', c)
    {
      if c != b {
        UntouchedBlock(s, s', c);
      } else if step.Free? {
        FreeKeepsBlock(s, h, b);
      } else {
        DropKeepsBlock(s, h, b);
      }
    }
  }

  lemma DestroyKeepsInv(s: State, h: nat)
    requires Inv(s) && h in s.handles && s.handles[h].phase == Clearing(Destroy)
    ensures Inv(s.(handles := s.handles - {h}))
  {
    var s' := s.(handles := s.handles - {h});
    NobodyReads(s, h);
    OtherHandlesOk(s, s', h);
    BorrowsKept(s, s', h);
    forall c | c in s.blocks
      ensures BlockOk(s', c)
    {
      UntouchedBlock(s, s', c);
    }
  }

  /** Ownership passes from `src` to `h`, uncounted before, and `src` becomes null. */
  ghost predicate Moves(s: State, s': State, h: nat, src: nat) {
    && Inv(s) && src != h && src in s.handles && s.handles[src].phase == Ready
    && (h !in s.handles || s.handles[h].phase.Clearing?)
    && (forall g | Reader(s, g, src) :: g == h)
    && s' == s.(handles := s.handles[h := s.handles[src]][src := Handle(None, Ready)])
  }

  lemma MovedOwner(s: State, s': State, h: nat, src: nat, c: nat)
    requires c in s.blocks && BlockOk(s, c) && c in s'.blocks && s'.blocks[c] == s.blocks[c]
    requires Owns(s, src, c) && !Owns(s, h, c)
    requires forall g :: Owns(s', g, c) <==> if g == h then Owns(s, src, c) else g != src && Owns(s, g, c)
    requires forall g :: Ends(s', g, c) <==> Ends(s, g, c)
    ensures BlockOk(s', c)
  {
    assert Owners(s', c) == Owners(s, c) - {src} + {h};
    assert src in Owners(s, c) && h !in Owners(s, c);
  }

  lemma MoveKeepsBlock(s: State, s': State, h: nat, src: nat, c: nat)
    requires Moves(s, s', h, src) && c in s.blocks
    ensures BlockOk(s', c)
  {
    forall g
      ensures Ends(s', g, c) <==> Ends(s, g, c)
    {
      assert g != h && g != src && g in s.handles ==> s'.handles[g] == s.handles[g];
    }
    forall g
      ensures Owns(s', g, c) <==> if g == h then Owns(s, src, c) else g != src && Owns(s, g, c)
    {
      assert g != h && g != src && g in s.handles ==> s'.handles[g] == s.handles[g];
    }
    assert !Owns(s, h, c);
    if Owns(s, src, c) {
      MovedOwner(s, s', h, src, c);
    } else {
      UntouchedBlock(s, s', c);
    }
  }

  lemma MoveKeepsInv(s: State, s': State, h: nat, src: nat)
    requires Moves(s, s', h, src)
    ensures Inv(s')
  {
    NobodyReads(s, h);
    assert HandleOk(s, src);
    forall g, x | Reader(s', g, x)
      ensures Reader(s, g, x) && g != h && x != src && x != h
    {
      assert g != h && g != src;
      assert Reader(s, g, x);
    }
    forall g | g in s'.handles
      ensures HandleOk(s', g)
    {
      if g != h && g != src {
        assert HandleOk(s, g);
        if s.handles[g].phase.Adding? { assert Reader(s', g, s.handles[g].phase.src); }
      }
    }
    assert BorrowsOk(s');
    forall c | c in s.blocks
      ensures BlockOk(s', c)
    {
      MoveKeepsBlock(s, s', h, src, c);
    }
  }

  lemma StepKeepsInv(s: State, step: Step)
    requires Inv(s) && Enabled(s, step) && NoWrap(step)
    ensures Inv(Apply(s, step))
  {
    var s' := Apply(s, step);
    match step
    case New(_, _, _) => NewKeepsInv(s, step);
    case Copy(h, src) => StartAddingKeepsInv(s, s', h, s.handles[src].ref, src);
    case Slice(h, src, offset, count) =>
      assert (offset + count) % WORD == offset + count;
      StartAddingKeepsInv(s, s', h, Sliced(s.handles[src].ref, offset, count), src);
    case MoveNew(h, src) =>
      assert forall g :: !Reader(s, g, src);
      MoveKeepsInv(s, s', h, src);
    case Add(_) => AddKeepsInv(s, step);
    case Release(_, _) => ReleaseKeepsInv(s, step);
    case Free(_) => FreeOrDropKeepsInv(s, step);
    case Drop(_) => FreeOrDropKeepsInv(s, step);
    case Clear(h) =>
      match s.handles[h].phase.then_ {
        case Destroy => DestroyKeepsInv(s, h);
        case CopyFrom(src) =>
          assert Reader(s, h, src);
          StartAddingKeepsInv(s, s', h, s.handles[src].ref, src);
        case MoveFrom(src) =>
          assert Reader(s, h, src);
          assert Takes(s.handles[h].phase, src);
          MoveKeepsInv(s, s', h, src);
      }
  }

  lemma {:induction false} RunKeepsInv(s: State, steps: seq<Step>)
    requires Inv(s) && Runs(s, steps)
    requires forall i | 0 <= i < |steps| :: NoWrap(steps[i])
    ensures Inv(Final(s, steps))
    decreases |steps|
  {
    if steps != [] {
      StepKeepsInv(s, steps[0]);
      RunKeepsInv(Apply(s, steps[0]), steps[1..]);
    }
  }
}
