/** What every schedule of the bump allocators guarantees. */
module BumpSafety {
  import opened Common
  import opened Alignment
  import opened Bits
  import opened BumpAllocator

  // ----- Reading the invariant

  ghost predicate Disjoint(iv: seq<Interval>) {
    forall i, j | 0 <= i < j < |iv| :: iv[i].hi <= iv[j].lo || iv[j].hi <= iv[i].lo
  }

  ghost predicate Inside(iv: seq<Interval>, end: nat) {
    forall i | 0 <= i < |iv| :: iv[i].lo <= iv[i].hi <= end
  }

  function TotalLength(iv: seq<Interval>): int {
    if iv == [] then 0 else TotalLength(iv[..|iv| - 1]) + iv[|iv| - 1].hi - iv[|iv| - 1].lo
  }

  lemma {:induction false} TiledOrdered(iv: seq<Interval>, end: nat, i: nat, j: nat)
    requires Tiled(iv, end) && i < j < |iv|
    ensures iv[i].hi <= iv[j].lo
    decreases j
  {
    if i < j - 1 { TiledOrdered(iv, end, i, j - 1); }
  }

  lemma TiledDisjoint(iv: seq<Interval>, end: nat)
    requires Tiled(iv, end)
    ensures Disjoint(iv) && Inside(iv, end)
  {
    forall i, j | 0 <= i < j < |iv|
      ensures iv[i].hi <= iv[j].lo
    {
      TiledOrdered(iv, end, i, j);
    }
    forall i | 0 <= i < |iv|
      ensures iv[i].lo <= iv[i].hi <= end
    {
      if i < |iv| - 1 { TiledOrdered(iv, end, i, |iv| - 1); }
    }
  }

  lemma {:induction false} TiledTotal(iv: seq<Interval>, end: nat)
    requires Tiled(iv, end)
    ensures TotalLength(iv) == end
  {
    if iv != [] {
      TiledTotal(iv[..|iv| - 1], iv[|iv| - 1].lo);
    }
  }

  /** `High` is the maximum: an upper bound that is reached. */
  lemma {:induction false} HighIsMaximum(h: seq<Interval>)
    ensures forall i | 0 <= i < |h| :: h[i].hi <= High(h)
    ensures h != [] ==> exists i :: 0 <= i < |h| && h[i].hi == High(h)
    ensures h == [] ==> High(h) == 0
  {
    if h != [] {
      var n := |h| - 1;
      HighIsMaximum(h[..n]);
      if High(h) == h[n].hi {
      } else if n == 0 {
      } else {
        var i :| 0 <= i < |h[..n]| && h[..n][i].hi == High(h[..n]);
        assert h[i].hi == High(h);
      }
    }
  }

  lemma TiledHigh(iv: seq<Interval>, end: nat)
    requires Tiled(iv, end)
    ensures High(iv) == end
  {
    HighIsMaximum(iv);
    TiledDisjoint(iv, end);
  }

  // ----- Safety over every run

  ghost predicate Schedule(capacity: nat, threads: nat, steps: seq<Step>) {
    && capacity <= SIZE_MAX
    && Runs(Init(capacity, threads), steps)
    && forall i | 0 <= i < |steps| :: NoWrap(capacity, steps[i])
  }

  lemma ScheduleInv(capacity: nat, threads: nat, steps: seq<Step>)
    requires Schedule(capacity, threads, steps)
    ensures Inv(Final(Init(capacity, threads), steps))
  {
    RunKeepsInv(Init(capacity, threads), steps);
  }

  lemma {:induction false} CapacityFixed(s: State, steps: seq<Step>)
    requires Runs(s, steps)
    ensures Final(s, steps).capacity == s.capacity && |Final(s, steps).pcs| == |s.pcs|
    decreases |steps|
  {
    if steps != [] { CapacityFixed(Apply(s, steps[0]), steps[1..]); }
  }

  /** Whatever the interleaving, the live allocations are pairwise disjoint, lie in
      [0, capacity) and add up to the bytes in use. */
  lemma LiveAllocationsAreDisjoint(capacity: nat, threads: nat, steps: seq<Step>)
    requires Schedule(capacity, threads, steps)
    ensures var s := Final(Init(capacity, threads), steps);
            && Disjoint(s.live)
            && Inside(s.live, capacity)
            && TotalLength(s.live) == s.offset <= capacity
  {
    ScheduleInv(capacity, threads, steps);
    CapacityFixed(Init(capacity, threads), steps);
    var s := Final(Init(capacity, threads), steps);
    TiledDisjoint(s.live, s.offset);
    TiledTotal(s.live, s.offset);
  }

  predicate IsRestore(step: Step) { step.Restore? }

  lemma {:induction false} WithoutRestoreNothingIsGivenBack(s: State, steps: seq<Step>)
    requires Runs(s, steps) && s.live == s.history
    requires forall i | 0 <= i < |steps| :: !IsRestore(steps[i])
    ensures Final(s, steps).live == Final(s, steps).history
    decreases |steps|
  {
    if steps != [] {
      assert !IsRestore(steps[0]);
      WithoutRestoreNothingIsGivenBack(Apply(s, steps[0]), steps[1..]);
    }
  }

  /** `MemoryPool` never restores, so there the statement is about every interval
      handed out since the last reset. */
  lemma {:induction false} PoolAllocationsAreDisjoint(capacity: nat, threads: nat, steps: seq<Step>)
    requires Schedule(capacity, threads, steps)
    requires forall i | 0 <= i < |steps| :: !IsRestore(steps[i])
    ensures var s := Final(Init(capacity, threads), steps);
            && Disjoint(s.history)
            && Inside(s.history, capacity)
            && TotalLength(s.history) == s.offset <= capacity
            && High(s.history) == s.offset
  {
    LiveAllocationsAreDisjoint(capacity, threads, steps);
    WithoutRestoreNothingIsGivenBack(Init(capacity, threads), steps);
    ScheduleInv(capacity, threads, steps);
    var s := Final(Init(capacity, threads), steps);
    TiledHigh(s.live, s.offset);
  }

  ghost predicate PeakQuiet(s: State) {
    forall t | 0 <= t < |s.pcs| :: !InPeakPhase(s.pcs[t])
  }

  /** `peak_` never exceeds the largest end reached since the reset, and equals it
      whenever no thread is between its reservation and the end of its peak loop. */
  lemma PeakIsExactWhenQuiet(capacity: nat, threads: nat, steps: seq<Step>)
    requires Schedule(capacity, threads, steps)
    ensures var s := Final(Init(capacity, threads), steps);
            && s.peak <= High(s.history) <= capacity
            && (PeakQuiet(s) ==> s.peak == High(s.history))
  {
    ScheduleInv(capacity, threads, steps);
    CapacityFixed(Init(capacity, threads), steps);
    var s := Final(Init(capacity, threads), steps);
    if s.peak < High(s.history) {
      var t: nat :| PeakPending(s, t);
      assert !PeakQuiet(s);
    }
  }

  /** A reservation gives up only when the request does not fit above the largest
      end reached. */
  lemma FailureMeansFull(s: State, step: Step)
    requires Inv(s) && step.Reserve? && Enabled(s, step)
    ensures Apply(s, step).pcs[step.t].Outside? <==> s.pcs[step.t].from + s.pcs[step.t].size > s.capacity
    ensures Apply(s, step).pcs[step.t].Outside? ==> High(s.history) + s.pcs[step.t].size > s.capacity
  {
    assert PcOk(s, s.pcs[step.t]);
  }

  /** In `MemoryPool` the largest end reached is the current offset: null is
      returned only when the request does not fit in what is left, however stale
      the offset was that the thread had read. */
  lemma PoolFailureMeansFull(capacity: nat, threads: nat, steps: seq<Step>, last: Step)
    requires Schedule(capacity, threads, steps)
    requires forall i | 0 <= i < |steps| :: !IsRestore(steps[i])
    requires last.Reserve? && Enabled(Final(Init(capacity, threads), steps), last)
    ensures var s := Final(Init(capacity, threads), steps);
            Apply(s, last).pcs[last.t].Outside? ==> s.offset + s.pcs[last.t].size > capacity
  {
    ScheduleInv(capacity, threads, steps);
    CapacityFixed(Init(capacity, threads), steps);
    PoolAllocationsAreDisjoint(capacity, threads, steps);
    FailureMeansFull(Final(Init(capacity, threads), steps), last);
  }

  lemma {:induction false} RunSplit(s: State, first: seq<Step>, second: seq<Step>)
    requires Runs(s, first)
    ensures Runs(s, first + second) <==> Runs(Final(s, first), second)
    ensures Runs(s, first + second) ==> Final(s, first + second) == Final(Final(s, first), second)
    decreases |first|
  {
    if first == [] {
      assert first + second == second;
    } else {
      assert (first + second)[1..] == first[1..] + second;
      RunSplit(Apply(s, first[0]), first[1..], second);
    }
  }

  // ----- Marks

  /** The steps leave mark `i` in place: no reset, no restore to an outer mark. */
  ghost predicate KeepsMark(i: nat, steps: seq<Step>) {
    forall k | 0 <= k < |steps| :: KeepsMarkStep(i, steps[k])
  }

  predicate KeepsMarkStep(i: nat, step: Step) {
    !step.Reset? && (step.Restore? ==> i <= step.i)
  }

  /** While mark `i` stays, so do the allocations live when it was taken, and every
      interval handed out since then starts at or above the marked offset. */
  ghost predicate AboveMark(s: State, i: nat, mark: Mark, since: nat) {
    && i < |s.marks| && s.marks[i] == mark
    && since <= |s.history|
    && mark.live <= s.live
    && forall k | since <= k < |s.history| :: mark.offset <= s.history[k].lo
  }

  lemma StepKeepsAboveMark(s: State, step: Step, i: nat, mark: Mark, since: nat)
    requires Inv(s) && Enabled(s, step) && KeepsMarkStep(i, step) && AboveMark(s, i, mark, since)
    ensures AboveMark(Apply(s, step), i, mark, since)
  {
    hide High, Tiled;
    var s' := Apply(s, step);
    assert MarkOk(s, i);
    if step.Reserve? && s'.history != s.history {
      assert s'.history[|s.history|].lo == s.offset;
      OffsetAboveMark(s, i);
    }
    if step.Restore? && i < step.i {
      assert MarkOk(s, step.i);
    }
  }

  lemma {:induction false} MarkedAllocationsSurvive(s: State, steps: seq<Step>, i: nat, mark: Mark, since: nat)
    requires Inv(s) && Runs(s, steps) && KeepsMark(i, steps)
    requires forall k | 0 <= k < |steps| :: NoWrap(s.capacity, steps[k])
    requires AboveMark(s, i, mark, since)
    ensures Inv(Final(s, steps)) && AboveMark(Final(s, steps), i, mark, since)
    decreases |steps|
  {
    hide Inv, AboveMark, KeepsMarkStep, NoWrap;
    if steps != [] {
      StepKeepsInv(s, steps[0]);
      StepKeepsAboveMark(s, steps[0], i, mark, since);
      StepKeepsCapacity(s, steps[0]);
      hide Apply, Enabled;
      MarkedAllocationsSurvive(Apply(s, steps[0]), steps[1..], i, mark, since);
    }
  }

  lemma StepKeepsCapacity(s: State, step: Step)
    requires Enabled(s, step)
    ensures Apply(s, step).capacity == s.capacity
  {
  }

  lemma OffsetAboveMark(s: State, i: nat)
    requires Inv(s) && i < |s.marks|
    ensures s.marks[i].offset <= s.offset
  {
    assert MarkOk(s, i);
    var mark := s.marks[i];
    if mark.live != [] {
      var n := |mark.live| - 1;
      assert mark.live[n] == s.live[n];
      TiledDisjoint(s.live, s.offset);
    }
  }

  /** Nested mark and restore. Take a mark after any schedule, go on with any
      schedule that does not undo it, in particular one that restores to it any
      number of times: the allocations live at the mark are still live, and nothing
      handed out since, restored or not, overlaps one of them. */
  lemma NothingOverlapsMarkedAllocations(capacity: nat, threads: nat, before: seq<Step>, after: seq<Step>)
    requires Schedule(capacity, threads, before + [TakeMark] + after)
    requires Runs(Init(capacity, threads), before)
    requires KeepsMark(|Final(Init(capacity, threads), before).marks|, after)
    ensures var s := Final(Init(capacity, threads), before);
            var s' := Final(Init(capacity, threads), before + [TakeMark] + after);
            && s.live <= s'.live
            && forall i, k | 0 <= i < |s.live| && |s.history| <= k < |s'.history| ::
                 s.live[i].hi <= s'.history[k].lo
  {
    var s0 := Init(capacity, threads);
    var s := Final(s0, before);
    var steps := before + [TakeMark] + after;
    assert steps == before + ([TakeMark] + after);
    RunSplit(s0, before, [TakeMark] + after);
    assert ([TakeMark] + after)[1..] == after;
    var m := Apply(s, TakeMark);
    assert Final(s0, steps) == Final(m, after);
    assert Schedule(capacity, threads, before) by {
      forall i | 0 <= i < |before|
        ensures NoWrap(capacity, before[i])
      {
        assert steps[i] == before[i];
      }
    }
    ScheduleInv(capacity, threads, before);
    CapacityFixed(s0, before);
    StepKeepsInv(s, TakeMark);
    forall k | 0 <= k < |after|
      ensures NoWrap(capacity, after[k])
    {
      assert steps[|before| + 1 + k] == after[k];
    }
    MarkedAllocationsSurvive(m, after, |s.marks|, Mark(s.offset, s.live), |s.history|);
    TiledDisjoint(s.live, s.offset);
  }
}
