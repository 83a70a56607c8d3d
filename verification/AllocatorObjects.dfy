/** The allocator object itself: fields updated in place by retry loops. Every
    operation is a run of the one-thread step machine, so everything proved of
    schedules holds of the object. `MemoryPool` is this class without the marker
    operations. */
module AllocatorObjects {
  import opened Common
  import opened Alignment
  import opened BumpAllocator
  import opened BumpSafety

  /** A weak compare-and-swap run by one thread fails only spuriously; the caller's
      world fixes how many times. */
  class StackAllocator {
    const base: nat
    const capacity: nat
    var offset: nat
    var peak: nat
    ghost var trace: seq<Step>

    ghost predicate Valid()
      reads this
    {
      capacity <= SIZE_MAX && At(Outside)
    }

    /** The machine state this object is in. */
    ghost function Track(): State
      reads this
      requires Runs(Init(capacity, 1), trace)
    {
      Final(Init(capacity, 1), trace)
    }

    /** The fields are those of the machine state, whose one thread is at `pc`. */
    ghost predicate At(pc: Pc)
      reads this
    {
      && Runs(Init(capacity, 1), trace)
      && var s := Track();
      && s.capacity == capacity && s.offset == offset && s.peak == peak && s.pcs == [pc] && Loose(s)
    }

    ghost method Advance(step: Step)
      requires Runs(Init(capacity, 1), trace) && Enabled(Track(), step) && Loose(Track())
      modifies this`trace
      ensures Runs(Init(capacity, 1), trace)
      ensures Track() == Apply(old(Track()), step) && Loose(Track())
      ensures trace == old(trace) + [step]
    {
      RunSplit(Init(capacity, 1), trace, [step]);
      LooseKept(Track(), step);
      trace := trace + [step];
    }

    constructor (base: nat, capacity: nat)
      requires capacity <= SIZE_MAX
      ensures Valid() && this.base == base && this.capacity == capacity
      ensures offset == 0 && peak == 0 && trace == []
    {
      this.base, this.capacity := base, capacity;
      offset, peak, trace := 0, 0, [];
    }

    method Allocate(bytes: nat, alignment: nat, spurious: nat, peakSpurious: nat) returns (r: Option<nat>)
      requires Valid() && bytes <= SIZE_MAX && alignment <= SIZE_MAX
      modifies this
      ensures Valid() && old(trace) <= trace
      ensures r.Some? <==> AlignSize(bytes, alignment).Some?
                           && Sum(old(offset), AlignSize(bytes, alignment).value) <= capacity
      ensures r.Some? ==> r.value == base + old(offset)
                          && offset == Sum(old(offset), AlignSize(bytes, alignment).value)
                          && peak == Max(old(peak), offset)
                          && Track().live == old(Track()).live
                             + [Interval(old(offset), old(offset) + AlignSize(bytes, alignment).value, alignment)]
      ensures r.None? ==> offset == old(offset) && peak == old(peak) && Track().live == old(Track()).live
    {
      var aligned := AlignSize(bytes, alignment);
      Advance(Call(0, bytes, alignment));
      if aligned.None? {
        return None;
      }
      assert At(AtLoad(aligned.value, alignment));
      r := ReserveRange(aligned.value, alignment, spurious);
      if r.Some? {
        RaisePeakTo(offset, peakSpurious);
        r := Some(base + r.value);
      }
    }

    /** The reserve loop: returns the offset claimed. */
    method ReserveRange(size: nat, ghost alignment: nat, spurious: nat) returns (r: Option<nat>)
      requires At(AtLoad(size, alignment))
      modifies this`offset, this`trace
      ensures old(trace) <= trace
      ensures Sum(old(offset), size) > capacity ==>
                && r == None && At(Outside) && offset == old(offset)
                && Track().live == old(Track()).live
      ensures Sum(old(offset), size) <= capacity ==>
                && r == Some(old(offset)) && offset == Sum(old(offset), size) && At(AtLoadPeak(offset))
                && Track().live == old(Track()).live + [Interval(old(offset), old(offset) + size, alignment)]
    {
      hide High;
      var from := offset;
      Advance(LoadOffset(0, from));
      var failures := spurious;
      while failures > 0 && Sum(from, size) <= capacity
        invariant At(AtReserve(size, alignment, from)) && from == offset == old(offset)
        invariant old(trace) <= trace && Track().live == old(Track()).live
      {
        Advance(Reserve(0, false, offset));
        from := offset;
        failures := failures - 1;
      }
      Advance(Reserve(0, true, offset));
      if Sum(from, size) > capacity {
        return None;
      }
      offset := Sum(from, size);
      return Some(from);
    }

    /** The peak loop. */
    method RaisePeakTo(end: nat, spurious: nat)
      requires At(AtLoadPeak(end))
      modifies this`peak, this`trace
      ensures old(trace) <= trace
      ensures At(Outside) && peak == Max(old(peak), end) && Track().live == old(Track()).live
    {
      var prev := peak;
      Advance(LoadPeak(0, prev));
      var failures := spurious;
      while failures > 0 && end > prev
        invariant At(AtRaisePeak(end, prev)) && prev == peak == old(peak)
        invariant old(trace) <= trace && Track().live == old(Track()).live
      {
        Advance(RaisePeak(0, false, peak));
        prev := peak;
        failures := failures - 1;
      }
      Advance(RaisePeak(0, true, peak));
      if end > prev {
        peak := end;
      }
    }

    method TakeMarker() returns (m: nat)
      requires Valid()
      modifies this`trace
      ensures Valid() && m == offset
      ensures trace == old(trace) + [TakeMark]
      ensures Track().marks == old(Track()).marks + [Mark(m, Track().live)]
    {
      Advance(TakeMark);
      m := offset;
    }

    /** `i` names the marker among those still in place, outermost first. */
    method RestoreTo(m: nat, ghost i: nat)
      requires Valid() && i < |Track().marks| && Track().marks[i].offset == m
      modifies this
      ensures Valid() && offset == m && peak == old(peak)
      ensures Track().live == old(Track()).marks[i].live
    {
      Advance(Restore(i));
      offset := m;
    }

    method ResetAll()
      requires Valid()
      modifies this
      ensures Valid() && offset == 0 && peak == 0 && Track().live == []
    {
      Advance(Reset);
      offset, peak := 0, 0;
    }
  }

  /** What the machine keeps even when a machine sum wraps. */
  ghost predicate Loose(s: State) {
    && s.offset <= High(s.history)
    && forall i | 0 <= i < |s.marks| :: s.marks[i].offset <= High(s.history)
  }

  lemma LooseKept(s: State, step: Step)
    requires Loose(s) && Enabled(s, step)
    ensures Loose(Apply(s, step))
  {
    hide High, AlignSize;
    match step
    case Reserve(_, _, _) =>
      var AtReserve(size, alignment, from) := s.pcs[step.t];
      HighAppend(s.history, Interval(from, from + size, alignment));
    case Restore(_) =>
    case Reset =>
    case _ =>
  }
}
