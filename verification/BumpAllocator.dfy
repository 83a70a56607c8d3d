/** `MemoryPool` and `StackAllocator` as a step machine. Any number of threads are
    inside `allocate` at once; every atomic access is a step of its own, a weak
    compare-and-swap may fail at any time, and a relaxed load may return a stale
    value. Both classes run the same `allocate`; only `StackAllocator` has the
    mark and restore steps. */
module BumpAllocator {
  import opened Common
  import opened Alignment

  /** A range [lo, hi) of offsets handed out by one successful reservation, and the
      alignment its request asked for. */
  datatype Interval = Interval(lo: nat, hi: nat, alignment: nat)

  /** Where a thread stands in `allocate`, with its local variables. */
  datatype Pc =
    | Outside
    | AtLoad(size: nat, alignment: nat)
    | AtReserve(size: nat, alignment: nat, from: nat)
    | AtLoadPeak(end: nat)
    | AtRaisePeak(end: nat, prev: nat)

  /** A marker taken by `mark`, with the allocations that were live then. */
  datatype Mark = Mark(offset: nat, live: seq<Interval>)

  /** `history` lists every interval handed out since the last reset and `live`
      those a restore has not given back; both only describe the run. */
  datatype State = State(
    capacity: nat,
    offset: nat,
    peak: nat,
    pcs: seq<Pc>,
    live: seq<Interval>,
    history: seq<Interval>,
    marks: seq<Mark>)

  /** One atomic step of thread `t`. `seen` is the value an atomic access returned
      and `wins` says whether a compare-and-swap succeeded. */
  datatype Step =
    | Call(t: nat, bytes: nat, alignment: nat)
    | LoadOffset(t: nat, seen: nat)
    | Reserve(t: nat, wins: bool, seen: nat)
    | LoadPeak(t: nat, seen: nat)
    | RaisePeak(t: nat, wins: bool, seen: nat)
    | TakeMark
    | Restore(i: nat)
    | Reset

  function Max(a: nat, b: nat): nat { if a < b then b else a }

  /** The largest end offset among the intervals, 0 if there is none. */
  function High(h: seq<Interval>): nat {
    if h == [] then 0 else Max(High(h[..|h| - 1]), h[|h| - 1].hi)
  }

  /** The machine sum of two offsets. */
  function Sum(x: nat, y: nat): nat { (x + y) % WORD }

  predicate Enabled(s: State, step: Step) {
    match step
    case Call(t, bytes, alignment) =>
      t < |s.pcs| && s.pcs[t].Outside? && bytes <= SIZE_MAX && alignment <= SIZE_MAX
    case LoadOffset(t, seen) =>
      t < |s.pcs| && s.pcs[t].AtLoad? && seen <= High(s.history)
    case Reserve(t, wins, seen) =>
      t < |s.pcs| && s.pcs[t].AtReserve? && seen <= High(s.history)
      && (wins ==> s.offset == s.pcs[t].from)
    case LoadPeak(t, seen) =>
      t < |s.pcs| && s.pcs[t].AtLoadPeak? && seen <= s.peak
    case RaisePeak(t, wins, seen) =>
      t < |s.pcs| && s.pcs[t].AtRaisePeak? && seen <= s.peak
      && (wins ==> s.peak == s.pcs[t].prev)
    case TakeMark => true
    case Restore(i) => i < |s.marks|
    case Reset => forall t | 0 <= t < |s.pcs| :: s.pcs[t].Outside?
  }

  function Goto(s: State, t: nat, pc: Pc): State
    requires t < |s.pcs|
  {
    s.(pcs := s.pcs[t := pc])
  }

  function Apply(s: State, step: Step): State
    requires Enabled(s, step)
  {
    match step
    case Call(t, bytes, alignment) =>
      (match AlignSize(bytes, alignment)
       case None => s
       case Some(size) => Goto(s, t, AtLoad(size, alignment)))
    case LoadOffset(t, seen) =>
      Goto(s, t, AtReserve(s.pcs[t].size, s.pcs[t].alignment, seen))
    case Reserve(t, wins, seen) =>
      var AtReserve(size, alignment, from) := s.pcs[t];
      var end := Sum(from, size);
      if end > s.capacity then Goto(s, t, Outside)
      else if wins then
        var got := Interval(from, from + size, alignment);
        Goto(s, t, AtLoadPeak(end)).(offset := end, live := s.live + [got], history := s.history + [got])
      else Goto(s, t, AtReserve(size, alignment, seen))
    case LoadPeak(t, seen) =>
      Goto(s, t, AtRaisePeak(s.pcs[t].end, seen))
    case RaisePeak(t, wins, seen) =>
      var AtRaisePeak(end, prev) := s.pcs[t];
      if end <= prev then Goto(s, t, Outside)
      else if wins then Goto(s, t, Outside).(peak := end)
      else Goto(s, t, AtRaisePeak(end, seen))
    case TakeMark =>
      s.(marks := s.marks + [Mark(s.offset, s.live)])
    case Restore(i) =>
      s.(offset := s.marks[i].offset, live := s.marks[i].live, marks := s.marks[..i + 1])
    case Reset =>
      s.(offset := 0, peak := 0, live := [], history := [], marks := [])
  }

  function Init(capacity: nat, threads: nat): State {
    State(capacity, 0, 0, seq(threads, _ => Outside), [], [], [])
  }

  /** A schedule is a sequence of enabled steps. */
  predicate Runs(s: State, steps: seq<Step>)
    decreases |steps|
  {
    steps == [] || (Enabled(s, steps[0]) && Runs(Apply(s, steps[0]), steps[1..]))
  }

  function Final(s: State, steps: seq<Step>): State
    requires Runs(s, steps)
    decreases |steps|
  {
    if steps == [] then s else Final(Apply(s, steps[0]), steps[1..])
  }

  /** The request's rounded size plus the capacity stays within a machine word. */
  predicate NoWrap(capacity: nat, step: Step) {
    step.Call? && step.bytes <= SIZE_MAX && step.alignment <= SIZE_MAX
    && AlignSize(step.bytes, step.alignment).Some?
    ==> AlignSize(step.bytes, step.alignment).value + capacity <= SIZE_MAX
  }

  /** The bound check `old_offset + aligned > capacity_` is sound at every offset
      of the block exactly when the request cannot wrap past it. */
  lemma BoundCheckExact(capacity: nat, size: nat)
    requires capacity <= SIZE_MAX && size <= SIZE_MAX
    ensures (forall from: nat | from <= capacity :: Sum(from, size) <= capacity ==> from + size <= capacity)
            <==> capacity + size <= SIZE_MAX
  {
    if capacity + size <= SIZE_MAX {
      forall from: nat | from <= capacity
        ensures Sum(from, size) == from + size
      {
      }
    } else {
      assert Sum(capacity, size) == capacity + size - WORD;
      assert Sum(capacity, size) <= capacity;
    }
  }

  // ----- What holds in every reachable state

  /** The intervals lie end to end from 0 to `end`. */
  ghost predicate Tiled(iv: seq<Interval>, end: nat) {
    && (iv == [] ==> end == 0)
    && (iv != [] ==> iv[0].lo == 0 && iv[|iv| - 1].hi == end)
    && (forall i | 0 <= i < |iv| :: iv[i].lo <= iv[i].hi)
    && (forall i | 0 < i < |iv| :: iv[i - 1].hi == iv[i].lo)
  }

  ghost predicate PcOk(s: State, pc: Pc) {
    match pc
    case Outside => true
    case AtLoad(size, _) => size + s.capacity <= SIZE_MAX
    case AtReserve(size, _, from) => size + s.capacity <= SIZE_MAX && from <= High(s.history)
    case AtLoadPeak(end) => end <= High(s.history)
    case AtRaisePeak(end, prev) => end <= High(s.history) && prev <= s.peak
  }

  /** The thread has reserved but not finished its peak loop. */
  predicate InPeakPhase(pc: Pc) { pc.AtLoadPeak? || pc.AtRaisePeak? }

  ghost predicate PeakPending(s: State, t: nat) {
    t < |s.pcs| && InPeakPhase(s.pcs[t]) && s.pcs[t].end == High(s.history)
  }

  ghost predicate MarkOk(s: State, i: nat)
    requires i < |s.marks|
  {
    Tiled(s.marks[i].live, s.marks[i].offset) && s.marks[i].live <= s.live
    && s.marks[i].offset <= High(s.history)
    && forall j | i < j < |s.marks| :: s.marks[i].live <= s.marks[j].live
  }

  ghost predicate Inv(s: State) {
    && s.capacity <= SIZE_MAX
    && s.offset <= High(s.history) <= s.capacity
    && Tiled(s.live, s.offset)
    && s.peak <= High(s.history)
    && (forall t | 0 <= t < |s.pcs| :: PcOk(s, s.pcs[t]))
    && (s.peak < High(s.history) ==> exists t: nat :: PeakPending(s, t))
    && (forall i | 0 <= i < |s.marks| :: MarkOk(s, i))
  }

  lemma HighAppend(h: seq<Interval>, iv: Interval)
    ensures High(h + [iv]) == Max(High(h), iv.hi)
  {
    assert (h + [iv])[..|h|] == h;
  }

  lemma TiledAppend(live: seq<Interval>, lo: nat, hi: nat, alignment: nat)
    requires Tiled(live, lo) && lo <= hi
    ensures Tiled(live + [Interval(lo, hi, alignment)], hi)
  {
    var l := live + [Interval(lo, hi, alignment)];
    forall i | 0 < i < |l|
      ensures l[i - 1].hi == l[i].lo
    {
      if i < |live| { assert l[i - 1] == live[i - 1]; }
    }
  }

  lemma ReserveKeepsInv(s: State, step: Step)
    requires Inv(s) && step.Reserve? && Enabled(s, step)
    ensures Inv(Apply(s, step))
  {
    hide High, Tiled;
    var t := step.t;
    var AtReserve(size, alignment, from) := s.pcs[t];
    var s' := Apply(s, step);
    assert PcOk(s, s.pcs[t]);
    assert Sum(from, size) == from + size;
    if from + size <= s.capacity && step.wins {
      var end := from + size;
      HighAppend(s.history, Interval(from, end, alignment));
      TiledAppend(s.live, from, end, alignment);
      forall u | 0 <= u < |s'.pcs|
        ensures PcOk(s', s'.pcs[u])
      {
        assert PcOk(s, s.pcs[u]);
      }
      if end > High(s.history) {
        assert PeakPending(s', t);
      } else if s.peak < High(s.history) {
        var u: nat :| PeakPending(s, u);
        assert PeakPending(s', u);
      }
      forall i | 0 <= i < |s'.marks|
        ensures MarkOk(s', i)
      {
        assert MarkOk(s, i);
      }
    } else {
      LocalMoveKeepsInv(s, t, s'.pcs[t]);
    }
  }

  /** A step that only moves a thread outside its peak phase keeps the invariant. */
  lemma LocalMoveKeepsInv(s: State, t: nat, pc: Pc)
    requires Inv(s) && t < |s.pcs| && PcOk(s, pc)
    requires InPeakPhase(s.pcs[t]) ==> InPeakPhase(pc) && pc.end == s.pcs[t].end
    ensures Inv(Goto(s, t, pc))
  {
    hide High, Tiled;
    var s' := Goto(s, t, pc);
    if s.peak < High(s.history) {
      var u: nat :| PeakPending(s, u);
      assert PeakPending(s', u);
    }
    forall i | 0 <= i < |s'.marks|
      ensures MarkOk(s', i)
    {
      assert MarkOk(s, i);
    }
  }

  lemma RaisePeakKeepsInv(s: State, step: Step)
    requires Inv(s) && step.RaisePeak? && Enabled(s, step)
    ensures Inv(Apply(s, step))
  {
    hide High, Tiled;
    var t := step.t;
    var AtRaisePeak(end, prev) := s.pcs[t];
    var s' := Apply(s, step);
    assert PcOk(s, s.pcs[t]);
    if end > prev && !step.wins {
      LocalMoveKeepsInv(s, t, s'.pcs[t]);
    } else {
      forall u | 0 <= u < |s'.pcs|
        ensures PcOk(s', s'.pcs[u])
      {
        assert PcOk(s, s.pcs[u]);
      }
      if s'.peak < High(s.history) {
        var u: nat :| PeakPending(s, u);
        assert PeakPending(s', u);
      }
      forall i | 0 <= i < |s'.marks|
        ensures MarkOk(s', i)
      {
        assert MarkOk(s, i);
      }
    }
  }

  lemma RestoreKeepsInv(s: State, i: nat)
    requires Inv(s) && i < |s.marks|
    ensures Inv(Apply(s, Restore(i)))
  {
    hide High, Tiled;
    var s' := Apply(s, Restore(i));
    assert MarkOk(s, i);
    forall u | 0 <= u < |s'.pcs|
      ensures PcOk(s', s'.pcs[u])
    {
      assert PcOk(s, s.pcs[u]);
    }
    if s.peak < High(s.history) {
      var u: nat :| PeakPending(s, u);
      assert PeakPending(s', u);
    }
    forall j | 0 <= j < |s'.marks|
      ensures MarkOk(s', j)
    {
      assert MarkOk(s, j);
    }
  }

  lemma TakeMarkKeepsInv(s: State)
    requires Inv(s)
    ensures Inv(Apply(s, TakeMark))
  {
    hide High, Tiled;
    var s' := Apply(s, TakeMark);
    forall u | 0 <= u < |s'.pcs|
      ensures PcOk(s', s'.pcs[u])
    {
      assert PcOk(s, s.pcs[u]);
    }
    if s.peak < High(s.history) {
      var u: nat :| PeakPending(s, u);
      assert PeakPending(s', u);
    }
    forall j | 0 <= j < |s'.marks|
      ensures MarkOk(s', j)
    {
      if j < |s.marks| { assert MarkOk(s, j); }
    }
  }

  lemma StepKeepsInv(s: State, step: Step)
    requires Inv(s) && Enabled(s, step) && NoWrap(s.capacity, step)
    ensures Inv(Apply(s, step))
  {
    match step
    case Call(t, bytes, alignment) =>
      if AlignSize(bytes, alignment).Some? {
        LocalMoveKeepsInv(s, t, AtLoad(AlignSize(bytes, alignment).value, alignment));
      }
    case LoadOffset(t, seen) =>
      assert PcOk(s, s.pcs[t]);
      LocalMoveKeepsInv(s, t, AtReserve(s.pcs[t].size, s.pcs[t].alignment, seen));
    case Reserve(_, _, _) => ReserveKeepsInv(s, step);
    case LoadPeak(t, seen) =>
      assert PcOk(s, s.pcs[t]);
      LocalMoveKeepsInv(s, t, AtRaisePeak(s.pcs[t].end, seen));
    case RaisePeak(_, _, _) => RaisePeakKeepsInv(s, step);
    case TakeMark => TakeMarkKeepsInv(s);
    case Restore(i) => RestoreKeepsInv(s, i);
    case Reset =>
  }

  lemma {:induction false} RunKeepsInv(s: State, steps: seq<Step>)
    requires Inv(s) && Runs(s, steps)
    requires forall i | 0 <= i < |steps| :: NoWrap(s.capacity, steps[i])
    ensures Inv(Final(s, steps))
    decreases |steps|
  {
    if steps != [] {
      StepKeepsInv(s, steps[0]);
      RunKeepsInv(Apply(s, steps[0]), steps[1..]);
    }
  }
}
