/** The addresses `allocate` returns. Its alignment argument rounds the size of the
    request and not the offset, so what an address is a multiple of depends on what
    was granted before. */
module BumpAddresses {
  import opened Alignment
  import opened Bits
  import opened BumpAllocator
  import opened BumpSafety
  import opened Common

  // ----- Requests with a common divisor

  /** Every accepted call so far asked for a multiple of `a`. */
  predicate AsksMultipleOf(a: nat, step: Step)
    requires a > 0
  {
    step.Call? ==> step.alignment % a == 0
  }

  ghost predicate AlignedPc(a: nat, pc: Pc)
    requires a > 0
  {
    match pc
    case AtLoad(size, _) => size % a == 0
    case AtReserve(size, _, _) => size % a == 0
    case _ => true
  }

  ghost predicate AlignedState(a: nat, s: State)
    requires a > 0
  {
    && s.offset % a == 0
    && (forall t | 0 <= t < |s.pcs| :: AlignedPc(a, s.pcs[t]))
    && (forall i | 0 <= i < |s.marks| :: s.marks[i].offset % a == 0)
    && (forall i | 0 <= i < |s.history| :: s.history[i].lo % a == 0)
  }

  lemma MultipleOfMultiple(x: nat, b: nat, a: nat)
    requires a > 0 && b > 0 && b % a == 0 && x % b == 0
    ensures x % a == 0
  {
    var m, n := x / b, b / a;
    assert x == b * m && b == a * n;
    assert x == a * (n * m) + 0 by { assert (a * n) * m == a * (n * m); }
    DivModUnique(x, a, n * m, 0);
  }

  lemma SumOfMultiples(x: nat, y: nat, a: nat)
    requires a > 0 && x % a == 0 && y % a == 0
    ensures (x + y) % a == 0
  {
    var m, n := x / a, y / a;
    assert x == a * m && y == a * n;
    assert a * m + a * n == a * (m + n) + 0;
    DivModUnique(x + y, a, m + n, 0);
  }

  lemma StepKeepsAligned(a: nat, s: State, step: Step)
    requires a > 0 && Inv(s) && AlignedState(a, s)
    requires Enabled(s, step) && NoWrap(s.capacity, step) && AsksMultipleOf(a, step)
    ensures AlignedState(a, Apply(s, step))
  {
    hide High, Tiled, AlignSize;
    match step
    case Call(t, bytes, alignment) =>
      if AlignSize(bytes, alignment).Some? {
        AlignSizeExact(bytes, alignment);
        MultipleOfMultiple(AlignSize(bytes, alignment).value, alignment, a);
      }
    case Reserve(t, wins, seen) =>
      assert PcOk(s, s.pcs[t]) && AlignedPc(a, s.pcs[t]);
      SumOfMultiples(s.offset, s.pcs[t].size, a);
    case LoadOffset(t, seen) =>
      assert AlignedPc(a, s.pcs[t]);
    case LoadPeak(_, _) =>
    case RaisePeak(_, _, _) =>
    case TakeMark =>
    case Restore(i) =>
    case Reset =>
  }

  lemma {:induction false} RunKeepsAligned(a: nat, s: State, steps: seq<Step>)
    requires a > 0 && Inv(s) && AlignedState(a, s) && Runs(s, steps)
    requires forall i | 0 <= i < |steps| :: NoWrap(s.capacity, steps[i]) && AsksMultipleOf(a, steps[i])
    ensures AlignedState(a, Final(s, steps))
    decreases |steps|
  {
    if steps != [] {
      assert NoWrap(s.capacity, steps[0]);
      StepKeepsInv(s, steps[0]);
      StepKeepsAligned(a, s, steps[0]);
      RunKeepsAligned(a, Apply(s, steps[0]), steps[1..]);
    }
  }

  /** In a block at a 64-aligned address, if every call of the run asked for a
      multiple of `a`, and `a` divides 64, every returned address is a multiple of
      `a`. */
  lemma ReturnedAddressesAreAligned(base: nat, a: nat, capacity: nat, threads: nat, steps: seq<Step>)
    requires Schedule(capacity, threads, steps)
    requires base % 64 == 0 && a > 0 && 64 % a == 0
    requires forall i | 0 <= i < |steps| :: AsksMultipleOf(a, steps[i])
    ensures var s := Final(Init(capacity, threads), steps);
            forall i | 0 <= i < |s.history| :: (base + s.history[i].lo) % a == 0
  {
    var s0 := Init(capacity, threads);
    RunKeepsAligned(a, s0, steps);
    var s := Final(s0, steps);
    forall i | 0 <= i < |s.history|
      ensures (base + s.history[i].lo) % a == 0
    {
      MultipleOfMultiple(base, 64, a);
      SumOfMultiples(base, s.history[i].lo, a);
    }
  }

  // ----- Each request's own alignment

  datatype Request = Request(bytes: nat, alignment: nat)

  /** The last request of thread `t`, `before` if it makes none in these steps. */
  function LastRequest(steps: seq<Step>, t: nat, before: Option<Request>): Option<Request> {
    if steps == [] then before else LastRequest(steps[1..], t, Noted(steps[0], t, before))
  }

  function Noted(step: Step, t: nat, before: Option<Request>): Option<Request> {
    if step.Call? && step.t == t then Some(Request(step.bytes, step.alignment)) else before
  }

  /** Before its reservation a thread still knows the size and alignment it was called with. */
  predicate Remembers(pc: Pc, request: Option<Request>) {
    pc.AtLoad? || pc.AtReserve? ==>
      && request.Some?
      && request.value.bytes <= SIZE_MAX && request.value.alignment <= SIZE_MAX
      && request.value.alignment == pc.alignment
      && AlignSize(request.value.bytes, request.value.alignment) == Some(pc.size)
  }

  lemma {:induction false} ThreadsRemember(s: State, steps: seq<Step>, t: nat, before: Option<Request>)
    requires Runs(s, steps) && t < |s.pcs| && Remembers(s.pcs[t], before)
    ensures t < |Final(s, steps).pcs| && Remembers(Final(s, steps).pcs[t], LastRequest(steps, t, before))
    decreases |steps|
  {
    hide AlignSize, High;
    if steps != [] {
      ThreadsRemember(Apply(s, steps[0]), steps[1..], t, Noted(steps[0], t, before));
    }
  }

  /** A power of two that divides the length. */
  ghost predicate Rounded(iv: Interval) {
    iv.alignment > 0 && IsPowerOfTwo(iv.alignment) && (iv.hi - iv.lo) % iv.alignment == 0
  }

  ghost predicate RoundedPc(pc: Pc) {
    pc.AtLoad? || pc.AtReserve? ==> pc.alignment > 0 && IsPowerOfTwo(pc.alignment) && pc.size % pc.alignment == 0
  }

  ghost predicate RoundedState(s: State) {
    && (forall t | 0 <= t < |s.pcs| :: RoundedPc(s.pcs[t]))
    && (forall i | 0 <= i < |s.history| :: Rounded(s.history[i]))
  }

  lemma StepKeepsRounded(s: State, step: Step)
    requires RoundedState(s) && Enabled(s, step)
    ensures RoundedState(Apply(s, step))
  {
    hide High, AlignSize, IsPowerOfTwo;
    match step
    case Call(t, bytes, alignment) =>
      AlignSizeExact(bytes, alignment);
    case LoadOffset(t, seen) =>
      assert RoundedPc(s.pcs[t]);
    case Reserve(t, wins, seen) =>
      assert RoundedPc(s.pcs[t]);
    case LoadPeak(_, _) =>
    case RaisePeak(_, _, _) =>
    case TakeMark =>
    case Restore(i) =>
    case Reset =>
  }

  lemma {:induction false} RunKeepsRounded(s: State, steps: seq<Step>)
    requires RoundedState(s) && Runs(s, steps)
    ensures RoundedState(Final(s, steps))
    decreases |steps|
  {
    hide RoundedState;
    if steps != [] {
      StepKeepsRounded(s, steps[0]);
      hide Apply, Enabled;
      RunKeepsRounded(Apply(s, steps[0]), steps[1..]);
    }
  }

  /** `last` reserves the interval `got`. */
  ghost predicate Grants(s: State, last: Step, got: Interval) {
    last.Reserve? && Enabled(s, last) && Apply(s, last).history == s.history + [got]
  }

  lemma GrantIs(s: State, last: Step, got: Interval)
    requires Inv(s) && Grants(s, last, got)
    ensures s.pcs[last.t].AtReserve? && got.alignment == s.pcs[last.t].alignment
    ensures got.lo == s.offset && got.hi == s.offset + s.pcs[last.t].size
  {
    hide High, Tiled;
    assert (s.history + [got])[|s.history|] == got;
    assert Apply(s, last).history[|s.history|] == got;
  }

  /** At any moment of any schedule: the address a request is granted is a multiple of the
      alignment it asked for exactly if base address plus bytes in use already was; for a
      64-aligned base and alignments up to 64, exactly if the bytes in use were. */
  lemma GrantHonoursAlignmentIff(base: nat, capacity: nat, threads: nat, steps: seq<Step>, last: Step, got: Interval)
    requires Schedule(capacity, threads, steps) && Grants(Final(Init(capacity, threads), steps), last, got)
    ensures var used := TotalLength(Final(Init(capacity, threads), steps).live);
            && used >= 0 && got.alignment > 0 && IsPowerOfTwo(got.alignment)
            && (exists bytes :: LastRequest(steps, last.t, None) == Some(Request(bytes, got.alignment)))
            && ((base + got.lo) % got.alignment == 0 <==> (base + used) % got.alignment == 0)
            && (base % 64 == 0 && got.alignment <= 64 ==>
                  ((base + got.lo) % got.alignment == 0 <==> used % got.alignment == 0))
  {
    var s0 := Init(capacity, threads);
    var s := Final(s0, steps);
    ScheduleInv(capacity, threads, steps);
    CapacityFixed(s0, steps);
    LiveAllocationsAreDisjoint(capacity, threads, steps);
    GrantIs(s, last, got);
    RunKeepsRounded(s0, steps);
    ThreadsRemember(s0, steps, last.t, None);
    assert RoundedPc(s.pcs[last.t]);
    if base % 64 == 0 && got.alignment <= 64 {
      SmallPowerDivides64(got.alignment);
      AlignedBase(base, got.lo, got.alignment);
    }
  }

  lemma SmallPowerDivides64(a: nat)
    requires 0 < a <= 64 && IsPowerOfTwo(a)
    ensures 64 % a == 0
  {
    PowerOf64();
    PowersDivide(a, 64);
  }

  /** Of two powers of two the smaller divides the larger. */
  lemma PowersDivide(a: nat, b: nat)
    requires 0 < a <= b && IsPowerOfTwo(a) && IsPowerOfTwo(b)
    ensures b % a == 0
  {
    var k: nat :| a == Pow2(k);
    var n: nat :| b == Pow2(n);
    hide Pow2;
    if k <= n {
      Pow2Sum(k, n - k);
      DivModUnique(b, a, Pow2(n - k), 0);
    } else {
      Pow2Monotone(n, k);
      DivModUnique(b, a, 1, 0);
    }
  }

  lemma AlignedBase(base: nat, offset: nat, alignment: nat)
    requires alignment > 0 && base % 64 == 0 && 64 % alignment == 0
    ensures (base + offset) % alignment == 0 <==> offset % alignment == 0
  {
    MultipleOfMultiple(base, 64, alignment);
    var m := base / alignment;
    assert base == alignment * m;
    var q, r := offset / alignment, offset % alignment;
    assert offset == alignment * q + r;
    assert base + offset == alignment * (m + q) + r;
    DivModUnique(base + offset, alignment, m + q, r);
  }

  // ----- Whole runs of a pool

  /** In `MemoryPool` an address is decided by the rounded sizes granted before it. */
  lemma PoolAddressIff(base: nat, capacity: nat, threads: nat, steps: seq<Step>, i: nat)
    requires Schedule(capacity, threads, steps) && forall k | 0 <= k < |steps| :: !IsRestore(steps[k])
    requires i < |Final(Init(capacity, threads), steps).history|
    ensures var h := Final(Init(capacity, threads), steps).history;
            && h[i].alignment > 0 && h[i].lo == TotalLength(h[..i])
            && ((base + h[i].lo) % h[i].alignment == 0 <==> (base + TotalLength(h[..i])) % h[i].alignment == 0)
  {
    var s0 := Init(capacity, threads);
    var s := Final(s0, steps);
    ScheduleInv(capacity, threads, steps);
    WithoutRestoreNothingIsGivenBack(s0, steps);
    RunKeepsRounded(s0, steps);
    assert Rounded(s.history[i]);
    assert Tiled(s.history[..i], s.history[i].lo);
    TiledTotal(s.history[..i], s.history[i].lo);
  }

  ghost predicate FallingAlignments(h: seq<Interval>) {
    forall i, j | 0 <= i < j < |h| :: h[j].alignment <= h[i].alignment
  }

  lemma {:induction false} LengthIsMultiple(h: seq<Interval>, a: nat)
    requires a > 0 && IsPowerOfTwo(a)
    requires forall i | 0 <= i < |h| :: Rounded(h[i]) && a <= h[i].alignment && h[i].lo <= h[i].hi
    ensures TotalLength(h) >= 0 && TotalLength(h) % a == 0
  {
    hide IsPowerOfTwo;
    if h != [] {
      var n := |h| - 1;
      LengthIsMultiple(h[..n], a);
      assert Rounded(h[n]);
      PowersDivide(a, h[n].alignment);
      MultipleOfMultiple(h[n].hi - h[n].lo, h[n].alignment, a);
      SumOfMultiples(TotalLength(h[..n]), h[n].hi - h[n].lo, a);
    }
  }

  /** Mixed alignments are all honoured if they are granted in falling order, none above 64. */
  lemma FallingAlignmentsAreHonoured(base: nat, capacity: nat, threads: nat, steps: seq<Step>, i: nat)
    requires Schedule(capacity, threads, steps) && forall k | 0 <= k < |steps| :: !IsRestore(steps[k])
    requires base % 64 == 0 && FallingAlignments(Final(Init(capacity, threads), steps).history)
    requires i < |Final(Init(capacity, threads), steps).history|
    requires Final(Init(capacity, threads), steps).history[i].alignment <= 64
    ensures var h := Final(Init(capacity, threads), steps).history;
            h[i].alignment > 0 && (base + h[i].lo) % h[i].alignment == 0
  {
    var s0 := Init(capacity, threads);
    var h := Final(s0, steps).history;
    PoolAddressIff(base, capacity, threads, steps, i);
    PoolAllocationsAreDisjoint(capacity, threads, steps);
    RunKeepsRounded(s0, steps);
    assert Rounded(h[i]);
    forall k | 0 <= k < i
      ensures Rounded(h[..i][k]) && h[i].alignment <= h[..i][k].alignment && h[..i][k].lo <= h[..i][k].hi
    {
      assert Rounded(h[k]);
    }
    LengthIsMultiple(h[..i], h[i].alignment);
    SmallPowerDivides64(h[i].alignment);
    AlignedBase(base, h[i].lo, h[i].alignment);
  }

  lemma PowerOf64()
    ensures IsPowerOfTwo(8) && IsPowerOfTwo(64) && IsPowerOfTwo(128)
  {
    assert Pow2(3) == 8;
    Pow2Sum(3, 3);
    assert Pow2(6) == 64;
    Pow2Sum(6, 1);
    assert Pow2(7) == 128;
  }
}
