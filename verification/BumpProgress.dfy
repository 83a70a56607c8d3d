/** What the retry loops of `allocate` do after a lost exchange: they go on from the value the
    exchange saw, so that a thread nobody interferes with loses no second one. */
module BumpProgress {
  import opened Alignment
  import opened BumpAllocator
  import opened BumpSafety
  import opened Common

  /** What is left of thread `t`'s reservation after a failed exchange that saw the offset and,
      unless the size it wants does not fit above the stale offset it had, a second one. */
  ghost predicate SecondTrySettles(s: State, t: nat)
    requires t < |s.pcs| && s.pcs[t].AtReserve?
  {
    var AtReserve(size, alignment, from) := s.pcs[t];
    && Enabled(s, Reserve(t, false, s.offset))
    && var s1 := Apply(s, Reserve(t, false, s.offset));
       if from + size > s.capacity then s1 == s.(pcs := s.pcs[t := Outside])
       else
         && Enabled(s1, Reserve(t, true, s.offset))
         && var s2 := Apply(s1, Reserve(t, true, s.offset));
            if s.offset + size > s.capacity then s2 == s.(pcs := s.pcs[t := Outside])
            else
              && s2.pcs == s.pcs[t := AtLoadPeak(s.offset + size)] && s2.offset == s.offset + size
              && s2.live == s.live + [Interval(s.offset, s.offset + size, alignment)]
  }

  lemma TryTwice(s: State, t: nat)
    requires s.offset <= High(s.history) <= s.capacity
    requires t < |s.pcs| && s.pcs[t].AtReserve? && PcOk(s, s.pcs[t])
    ensures SecondTrySettles(s, t)
  {
    hide High;
    var AtReserve(size, alignment, from) := s.pcs[t];
    assert from + size <= SIZE_MAX && Sum(from, size) == from + size;
    assert s.offset + size <= SIZE_MAX && Sum(s.offset, size) == s.offset + size;
  }

  /** In every reachable state, with however stale an offset in hand: the exchange after a failed
      one that saw the offset can win, and then it grants exactly the bytes behind the offset;
      null is returned exactly if they do not fit. */
  lemma NextExchangeWins(capacity: nat, threads: nat, steps: seq<Step>, s: State, t: nat)
    requires Schedule(capacity, threads, steps) && s == Final(Init(capacity, threads), steps)
    requires t < |s.pcs| && s.pcs[t].AtReserve?
    ensures SecondTrySettles(s, t) && s.capacity == capacity
  {
    ScheduleInv(capacity, threads, steps);
    CapacityFixed(Init(capacity, threads), steps);
    assert PcOk(s, s.pcs[t]);
    hide PcOk, Apply, Enabled, High;
    TryTwice(s, t);
  }

  /** The peak loop likewise: after one failed exchange that saw the peak, the next one leaves the
      maximum of the peak and the thread's end, and the thread is done. */
  lemma NextPeakExchangeWins(s: State, t: nat)
    requires t < |s.pcs| && s.pcs[t].AtRaisePeak? && s.pcs[t].prev <= s.peak
    ensures Enabled(s, RaisePeak(t, false, s.peak))
    ensures var s1, end := Apply(s, RaisePeak(t, false, s.peak)), s.pcs[t].end;
            if s1.pcs[t].Outside? then end <= s.peak && s1.peak == s.peak
            else
              && Enabled(s1, RaisePeak(t, true, s.peak))
              && var s2 := Apply(s1, RaisePeak(t, true, s.peak));
                 s2.pcs[t].Outside? && s2.peak == if end > s.peak then end else s.peak
  {
  }

  // ----- What can always happen

  lemma StepKeepsHigh(s: State, step: Step)
    requires Enabled(s, step) && !step.Reset?
    ensures High(s.history) <= High(Apply(s, step).history)
  {
    hide High, AlignSize;
    match step
    case Reserve(_, _, _) =>
      var AtReserve(size, alignment, from) := s.pcs[step.t];
      HighAppend(s.history, Interval(from, from + size, alignment));
    case Call(_, _, _) =>
    case LoadOffset(_, _) =>
    case LoadPeak(_, _) =>
    case RaisePeak(_, _, _) =>
    case TakeMark =>
    case Restore(_) =>
  }

  lemma {:induction false} RunKeepsHigh(s: State, steps: seq<Step>)
    requires Runs(s, steps) && forall i | 0 <= i < |steps| :: !steps[i].Reset?
    ensures High(s.history) <= High(Final(s, steps).history)
    decreases |steps|
  {
    hide High, Apply, Enabled;
    if steps != [] {
      StepKeepsHigh(s, steps[0]);
      RunKeepsHigh(Apply(s, steps[0]), steps[1..]);
    }
  }

  /** A load of the offset, or a failed exchange, may return any value the offset has had since
      the last reset, however long ago. */
  lemma StaleOffsetsAreSeen(capacity: nat, threads: nat, before: seq<Step>, after: seq<Step>, t: nat)
    requires Schedule(capacity, threads, before + after) && Schedule(capacity, threads, before)
    requires forall i | 0 <= i < |after| :: !after[i].Reset?
    ensures var was, s := Final(Init(capacity, threads), before).offset, Final(Init(capacity, threads), before + after);
            t < |s.pcs| ==>
              && (s.pcs[t].AtLoad? ==> Enabled(s, LoadOffset(t, was)))
              && (s.pcs[t].AtReserve? ==> Enabled(s, Reserve(t, false, was)))
              && (s.pcs[t].AtReserve? && s.offset == s.pcs[t].from ==> Enabled(s, Reserve(t, true, was)))
  {
    ScheduleInv(capacity, threads, before);
    RunSplit(Init(capacity, threads), before, after);
    hide High, Apply, Init;
    RunKeepsHigh(Final(Init(capacity, threads), before), after);
  }

  /** A thread outside can call, with any machine words; one in the peak loop can go on. */
  lemma CallsCanBegin(s: State, t: nat, bytes: nat, alignment: nat)
    requires t < |s.pcs| && bytes <= SIZE_MAX && alignment <= SIZE_MAX
    ensures s.pcs[t].Outside? ==> Enabled(s, Call(t, bytes, alignment))
    ensures s.pcs[t].AtLoadPeak? ==> forall seen: nat | seen <= s.peak :: Enabled(s, LoadPeak(t, seen))
    ensures s.pcs[t].AtRaisePeak? ==>
              forall seen: nat | seen <= s.peak ::
                && Enabled(s, RaisePeak(t, false, seen))
                && (s.peak == s.pcs[t].prev ==> Enabled(s, RaisePeak(t, true, seen)))
    ensures Enabled(s, TakeMark)
    ensures forall i | 0 <= i < |s.marks| :: Enabled(s, Restore(i))
  {
  }
}
