/** Schedules, from an allocator that is still empty, that show where its guarantees end. */
module BumpWitnesses {
  import opened Alignment
  import opened Bits
  import opened BumpAddresses
  import opened BumpAllocator
  import opened BumpSafety
  import opened Common

  ghost predicate Reaches(s: State, steps: seq<Step>, s': State) {
    Runs(s, steps) && Final(s, steps) == s'
  }

  lemma Onward(s: State, steps: seq<Step>, mid: State, step: Step, s': State)
    requires Reaches(s, steps, mid) && Enabled(mid, step) && Apply(mid, step) == s'
    ensures Reaches(s, steps + [step], s')
  {
    RunSplit(s, steps, [step]);
    assert [step][1..] == [];
  }

  lemma Joined(s: State, first: seq<Step>, mid: State, second: seq<Step>, s': State)
    requires Reaches(s, first, mid) && Reaches(mid, second, s')
    ensures Reaches(s, first + second, s')
  {
    RunSplit(s, first, second);
  }

  lemma HighOfOne(iv: Interval)
    ensures High([iv]) == iv.hi
  {
    assert [iv][..0] == [];
  }

  lemma SizesAccepted()
    ensures AlignSize(8, 8) == Some(8) && AlignSize(64, 64) == Some(64) && AlignSize(128, 128) == Some(128)
    ensures AlignSize(WORD - 64, 64) == Some(WORD - 64)
  {
    hide AlignSize, IsPowerOfTwo;
    PowerOf64();
    MultipleAccepted(8, 8);
    MultipleAccepted(64, 64);
    MultipleAccepted(128, 128);
    MultipleAccepted(WORD - 64, 64);
  }

  lemma MultipleAccepted(bytes: nat, alignment: nat)
    requires IsPowerOfTwo(alignment) && 0 < alignment <= SIZE_MAX && bytes + alignment - 1 <= SIZE_MAX
    requires bytes % alignment == 0
    ensures AlignSize(bytes, alignment) == Some(bytes)
  {
    hide AlignSize, IsPowerOfTwo, RoundUp;
    AlignSizeExact(bytes, alignment);
    var a := AlignSize(bytes, alignment).value;
    assert a == alignment * (a / alignment) && bytes == alignment * (bytes / alignment);
    assert alignment * (a / alignment - bytes / alignment) == a - bytes;
    MulGrows(alignment, a / alignment - bytes / alignment);
  }

  // ----- Alignments that are not honoured

  /** `capacity` bytes, of which one thread has been granted [0, size) and finished. */
  function OneGrant(capacity: nat, size: nat, alignment: nat): State {
    var iv := Interval(0, size, alignment);
    State(capacity, size, size, [Outside], [iv], [iv], [])
  }

  function Grant(size: nat, alignment: nat): seq<Step> {
    [Call(0, size, alignment), LoadOffset(0, 0), Reserve(0, true, 0)]
  }

  function Finish(): seq<Step> { [LoadPeak(0, 0), RaisePeak(0, true, 0)] }

  ghost predicate Grantable(capacity: nat, size: nat, alignment: nat) {
    0 < size <= capacity < WORD && alignment <= SIZE_MAX && AlignSize(size, alignment) == Some(size)
  }

  lemma Granted(capacity: nat, size: nat, alignment: nat)
    requires Grantable(capacity, size, alignment)
    ensures Runs(Init(capacity, 1), Grant(size, alignment))
    ensures Final(Init(capacity, 1), Grant(size, alignment))
         == OneGrant(capacity, size, alignment).(peak := 0, pcs := [AtLoadPeak(size)])
  {
    hide AlignSize;
    var s0 := Init(capacity, 1);
    var s1 := s0.(pcs := [AtLoad(size, alignment)]);
    var s2 := s0.(pcs := [AtReserve(size, alignment, 0)]);
    assert Reaches(s0, [], s0);
    Onward(s0, [], s0, Call(0, size, alignment), s1);
    var one := [Call(0, size, alignment)];
    Onward(s0, one, s1, LoadOffset(0, 0), s2);
    var s3 := OneGrant(capacity, size, alignment).(peak := 0, pcs := [AtLoadPeak(size)]);
    Onward(s0, one + [LoadOffset(0, 0)], s2, Reserve(0, true, 0), s3);
    assert one + [LoadOffset(0, 0)] + [Reserve(0, true, 0)] == Grant(size, alignment);
  }

  lemma Finished(capacity: nat, size: nat, alignment: nat)
    requires Grantable(capacity, size, alignment)
    ensures Reaches(Init(capacity, 1), Grant(size, alignment) + Finish(), OneGrant(capacity, size, alignment))
  {
    Granted(capacity, size, alignment);
    hide AlignSize;
    var s0, s := Init(capacity, 1), OneGrant(capacity, size, alignment);
    var s3 := s.(peak := 0, pcs := [AtLoadPeak(size)]);
    var s4 := s3.(pcs := [AtRaisePeak(size, 0)]);
    var granted := Grant(size, alignment);
    Onward(s0, granted, s3, LoadPeak(0, 0), s4);
    Onward(s0, granted + [LoadPeak(0, 0)], s4, RaisePeak(0, true, 0), s);
    assert granted + [LoadPeak(0, 0)] + [RaisePeak(0, true, 0)] == granted + Finish();
  }

  /** A pool at address 64, empty: a request for 128 bytes at alignment 128 is granted at
      address 64, although the bytes in use, none, are a multiple of 128. */
  lemma WideAlignmentMisaligns()
    ensures Schedule(256, 1, Grant(128, 128))
    ensures Final(Init(256, 1), Grant(128, 128)).history == [Interval(0, 128, 128)]
    ensures 64 % 64 == 0 && 0 % 128 == 0 && (64 + 0) % 128 != 0
  {
    SizesAccepted();
    Granted(256, 128, 128);
    hide AlignSize, Runs, Init, Final;
  }

  /** The thread asks again, and is granted at the offset it finds. */
  function Ask(bytes: nat, alignment: nat, from: nat): seq<Step> {
    [Call(0, bytes, alignment), LoadOffset(0, from), Reserve(0, true, from)]
  }

  function TwoGrants(capacity: nat, first: nat, falign: nat, size: nat, alignment: nat): State {
    var ivs := [Interval(0, first, falign), Interval(first, first + size, alignment)];
    State(capacity, Sum(first, size), first, [AtLoadPeak(Sum(first, size))], ivs, ivs, [])
  }

  ghost predicate IsRounded(bytes: nat, alignment: nat, size: nat) {
    bytes <= SIZE_MAX && alignment <= SIZE_MAX && AlignSize(bytes, alignment) == Some(size)
  }

  lemma Asked(capacity: nat, first: nat, falign: nat, bytes: nat, alignment: nat, size: nat)
    requires IsRounded(bytes, alignment, size) && Sum(first, size) <= capacity
    ensures Reaches(OneGrant(capacity, first, falign), Ask(bytes, alignment, first),
                    TwoGrants(capacity, first, falign, size, alignment))
  {
    HighOfOne(Interval(0, first, falign));
    hide AlignSize, High, Sum;
    var s := OneGrant(capacity, first, falign);
    var s1 := s.(pcs := [AtLoad(size, alignment)]);
    var s2 := s.(pcs := [AtReserve(size, alignment, first)]);
    var one := [Call(0, bytes, alignment)];
    assert Reaches(s, [], s);
    Onward(s, [], s, Call(0, bytes, alignment), s1);
    Onward(s, one, s1, LoadOffset(0, first), s2);
    Onward(s, one + [LoadOffset(0, first)], s2, Reserve(0, true, first),
           TwoGrants(capacity, first, falign, size, alignment));
    assert one + [LoadOffset(0, first)] + [Reserve(0, true, first)] == Ask(bytes, alignment, first);
  }

  /** The same pool: after 8 bytes at alignment 8, a request for 64 bytes at alignment 64
      is granted at address 72. */
  lemma MixedAlignmentsMisalign()
    ensures Schedule(256, 1, Grant(8, 8) + Finish() + Ask(64, 64, 8))
    ensures Final(Init(256, 1), Grant(8, 8) + Finish() + Ask(64, 64, 8)).history
         == [Interval(0, 8, 8), Interval(8, 72, 64)]
    ensures (64 + 8) % 64 != 0
  {
    hide AlignSize, Runs, Init, Final, NoWrap;
    SizesAccepted();
    Finished(256, 8, 8);
    Asked(256, 8, 8, 64, 64, 64);
    Joined(Init(256, 1), Grant(8, 8) + Finish(), OneGrant(256, 8, 8), Ask(64, 64, 8), TwoGrants(256, 8, 8, 64, 64));
    MixedNoWrap();
  }

  lemma MixedNoWrap()
    ensures forall i | 0 <= i < 8 :: NoWrap(256, (Grant(8, 8) + Finish() + Ask(64, 64, 8))[i])
  {
    SizesAccepted();
    hide AlignSize;
  }

  // ----- Requests that wrap

  /** A pool all of whose bytes have been granted is asked once more. */
  function FillThenAsk(capacity: nat, bytes: nat, alignment: nat): seq<Step> {
    Grant(capacity, 1) + Finish() + Ask(bytes, alignment, capacity)
  }

  /** Every request that `align_size` accepts, and whose size and the capacity do not add up
      within a machine word, can be granted bytes beyond the block. */
  lemma WrappedRequestEscapes(capacity: nat, bytes: nat, alignment: nat, size: nat)
    requires capacity <= SIZE_MAX && IsRounded(bytes, alignment, size) && capacity + size > SIZE_MAX
    ensures Runs(Init(capacity, 1), FillThenAsk(capacity, bytes, alignment))
    ensures !Inside(Final(Init(capacity, 1), FillThenAsk(capacity, bytes, alignment)).live, capacity)
  {
    AlignSizeExact(bytes, alignment);
    hide Runs, Init, Final, AlignSize;
    OneAccepts(capacity);
    Finished(capacity, capacity, 1);
    var s := OneGrant(capacity, capacity, 1);
    var end := TwoGrants(capacity, capacity, 1, size, alignment);
    assert Sum(capacity, size) == capacity + size - WORD;
    Asked(capacity, capacity, 1, bytes, alignment, size);
    Joined(Init(capacity, 1), Grant(capacity, 1) + Finish(), s, Ask(bytes, alignment, capacity), end);
    assert end.live[1] == Interval(capacity, capacity + size, alignment);
  }

  lemma OneAccepts(bytes: nat)
    requires bytes <= SIZE_MAX
    ensures AlignSize(bytes, 1) == Some(bytes)
  {
    assert 1 == Pow2(0);
    MultipleAccepted(bytes, 1);
  }

  /** A schedule whose accepted requests come to at most `limit` bytes each, rounded. */
  ghost predicate Limited(capacity: nat, threads: nat, steps: seq<Step>, limit: nat) {
    && Runs(Init(capacity, threads), steps)
    && forall i | 0 <= i < |steps| :: WithinLimit(steps[i], limit)
  }

  predicate WithinLimit(step: Step, limit: nat) {
    step.Call? && step.bytes <= SIZE_MAX && step.alignment <= SIZE_MAX
    && AlignSize(step.bytes, step.alignment).Some?
    ==> AlignSize(step.bytes, step.alignment).value <= limit
  }

  ghost predicate KeepsInside(capacity: nat, limit: nat) {
    forall threads: nat, steps | Limited(capacity, threads, steps, limit) ::
      Inside(Final(Init(capacity, threads), steps).live, capacity)
  }

  /** Requests of up to `limit` bytes, at least enough to fill the block, never reach beyond it
      under any schedule of any number of threads if and only if the largest of them cannot wrap. */
  lemma BoundsHoldIff(capacity: nat, limit: nat)
    requires capacity <= limit <= SIZE_MAX
    ensures KeepsInside(capacity, limit) <==> capacity + limit <= SIZE_MAX
  {
    hide Runs, Init, Final, Inside, AlignSize;
    if capacity + limit <= SIZE_MAX {
      forall threads: nat, steps | Limited(capacity, threads, steps, limit)
        ensures Inside(Final(Init(capacity, threads), steps).live, capacity)
      {
        LimitedIsSchedule(capacity, threads, steps, limit);
        LiveAllocationsAreDisjoint(capacity, threads, steps);
      }
    } else {
      OneAccepts(capacity);
      OneAccepts(limit);
      WrappedRequestEscapes(capacity, limit, 1, limit);
      var steps := FillThenAsk(capacity, limit, 1);
      assert Limited(capacity, 1, steps, limit);
    }
  }

  lemma LimitedIsSchedule(capacity: nat, threads: nat, steps: seq<Step>, limit: nat)
    requires Limited(capacity, threads, steps, limit) && capacity + limit <= SIZE_MAX
    ensures Schedule(capacity, threads, steps)
  {
    hide Runs, AlignSize;
    forall i | 0 <= i < |steps|
      ensures NoWrap(capacity, steps[i])
    {
      assert WithinLimit(steps[i], limit);
    }
  }


  /** Thread 1 has loaded the offset of an empty pool of 64 bytes and is about to reserve all
      of them; thread 0 reserves them first and finishes. */
  function Filling(): seq<Step> {
    [Call(1, 64, 64), LoadOffset(1, 0)] + [Call(0, 64, 64), LoadOffset(0, 0), Reserve(0, true, 0)]
    + [LoadPeak(0, 0), RaisePeak(0, true, 0)]
  }

  /** Thread 0 now asks for 2^64 - 64 bytes; then thread 1 goes on. */
  function Wrapping(): seq<Step> {
    [Call(0, WORD - 64, 64), LoadOffset(0, 64), Reserve(0, true, 64), Reserve(1, true, 0)]
  }

  const BLOCK: Interval := Interval(0, 64, 64)

  function FullPool(): State {
    State(64, 64, 64, [Outside, AtReserve(64, 64, 0)], [BLOCK], [BLOCK], [])
  }

  function Overlapped(): State {
    var ivs := [BLOCK, Interval(64, WORD, 64), BLOCK];
    State(64, 64, 64, [AtLoadPeak(0), AtLoadPeak(64)], ivs, ivs, [])
  }

  lemma Fills()
    ensures Reaches(Init(64, 2), Filling(), FullPool())
  {
    SizesAccepted();
    HighOfOne(BLOCK);
    hide AlignSize;
    var s0 := Init(64, 2);
    var r := AtReserve(64, 64, 0);
    var a := s0.(pcs := [Outside, AtLoad(64, 64)]);
    var b := s0.(pcs := [Outside, r]);
    var c := s0.(pcs := [AtLoad(64, 64), r]);
    var d := s0.(pcs := [r, r]);
    assert Reaches(s0, [], s0);
    Onward(s0, [], s0, Call(1, 64, 64), a);
    Onward(s0, [Call(1, 64, 64)], a, LoadOffset(1, 0), b);
    var two := [Call(1, 64, 64), LoadOffset(1, 0)];
    Onward(s0, two, b, Call(0, 64, 64), c);
    Onward(s0, two + [Call(0, 64, 64)], c, LoadOffset(0, 0), d);
    var e := FullPool().(peak := 0, pcs := [AtLoadPeak(64), r]);
    var f := e.(pcs := [AtRaisePeak(64, 0), r]);
    Onward(s0, two + [Call(0, 64, 64)] + [LoadOffset(0, 0)], d, Reserve(0, true, 0), e);
    var five := two + [Call(0, 64, 64), LoadOffset(0, 0), Reserve(0, true, 0)];
    assert two + [Call(0, 64, 64)] + [LoadOffset(0, 0)] + [Reserve(0, true, 0)] == five;
    hide High;
    Onward(s0, five, e, LoadPeak(0, 0), f);
    Onward(s0, five + [LoadPeak(0, 0)], f, RaisePeak(0, true, 0), FullPool());
    assert five + [LoadPeak(0, 0)] + [RaisePeak(0, true, 0)] == Filling();
  }

  lemma Wraps()
    ensures Reaches(FullPool(), Wrapping(), Overlapped())
  {
    SizesAccepted();
    HighOfOne(BLOCK);
    hide AlignSize, High;
    var s := FullPool();
    var r := AtReserve(64, 64, 0);
    var a := s.(pcs := [AtLoad(WORD - 64, 64), r]);
    var b := s.(pcs := [AtReserve(WORD - 64, 64, 64), r]);
    assert Reaches(s, [], s);
    Onward(s, [], s, Call(0, WORD - 64, 64), a);
    Onward(s, [Call(0, WORD - 64, 64)], a, LoadOffset(0, 64), b);
    var ivs := [BLOCK, Interval(64, WORD, 64)];
    var c := State(64, 0, 64, [AtLoadPeak(0), r], ivs, ivs, []);
    var two := [Call(0, WORD - 64, 64), LoadOffset(0, 64)];
    Onward(s, two, b, Reserve(0, true, 64), c);
    Onward(s, two + [Reserve(0, true, 64)], c, Reserve(1, true, 0), Overlapped());
    assert two + [Reserve(0, true, 64)] + [Reserve(1, true, 0)] == Wrapping();
  }

  /** `align_size` accepts the size 2^64 - 64, its reservation wraps the offset to 0, and the
      only 64 bytes of the block are handed out twice. */
  lemma WrappedReservationOverlaps()
    ensures Runs(Init(64, 2), Filling() + Wrapping())
    ensures !Disjoint(Final(Init(64, 2), Filling() + Wrapping()).live)
  {
    Fills();
    Wraps();
    Joined(Init(64, 2), Filling(), FullPool(), Wrapping(), Overlapped());
    hide Runs, Init, Final;
    var live := Overlapped().live;
    assert live[0] == live[2] == BLOCK;
  }
}
