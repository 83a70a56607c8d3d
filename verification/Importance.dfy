/** Importance routing of `bench/bench_poc_benchmark.cpp`: blocks are ranked by mean magnitude
    and the best ranked get the wider formats. */
module Importance {
  import opened Common
  import opened FormatMix
  import opened Reals

  // ----- Blocks

  const BSZ: nat := 256

  function Blocks(n: nat): nat { (n + BSZ - 1) / BSZ }

  function Start(b: nat): nat { b * BSZ }

  function End(b: nat, n: nat): nat { if b * BSZ + BSZ < n then b * BSZ + BSZ else n }

  lemma BlockFits(b: nat, n: nat)
    requires b < Blocks(n)
    ensures Start(b) < End(b, n) <= n && End(b, n) <= Start(b) + BSZ
    ensures b + 1 < Blocks(n) ==> End(b, n) == Start(b + 1)
    ensures b + 1 == Blocks(n) ==> End(b, n) == n
  {
  }

  /** Every element lies in exactly one block. */
  lemma BlockOfElement(i: nat, n: nat, b: nat)
    requires i < n && b < Blocks(n)
    ensures i / BSZ < Blocks(n)
    ensures Start(b) <= i < End(b, n) <==> b == i / BSZ
  {
  }

  function SumAbs(s: seq<real>): real {
    if s == [] then 0.0 else SumAbs(s[..|s| - 1]) + AbsR(s[|s| - 1])
  }

  function Score(data: seq<real>, b: nat): real
    requires b < Blocks(|data|)
  {
    BlockFits(b, |data|);
    SumAbs(data[Start(b)..End(b, |data|)]) / (End(b, |data|) - Start(b)) as real
  }

  function Scores(data: seq<real>): (s: seq<real>)
    ensures |s| == Blocks(|data|)
  {
    seq(Blocks(|data|), b requires 0 <= b < Blocks(|data|) => Score(data, b))
  }

  // ----- The sort: `std::sort` by descending score, ties in any order

  predicate Distinct(s: seq<nat>) {
    forall i, j | 0 <= i < j < |s| :: s[i] != s[j]
  }

  predicate Covers(order: seq<nat>, m: nat) {
    && (forall k | 0 <= k < |order| :: order[k] < m)
    && (forall b: nat | b < m :: b in order)
    && Distinct(order)
  }

  predicate Descends(scores: seq<real>, order: seq<nat>) {
    && (forall k | 0 <= k < |order| :: order[k] < |scores|)
    && (forall i, j | 0 <= i < j < |order| :: scores[order[i]] >= scores[order[j]])
  }

  predicate IsSort(scores: seq<real>, order: seq<nat>) {
    Covers(order, |scores|) && Descends(scores, order)
  }

  function Inserted(order: seq<nat>, at: nat, b: nat): seq<nat>
    requires at <= |order|
  {
    order[..at] + [b] + order[at..]
  }

  lemma InsertedCovers(order: seq<nat>, at: nat, b: nat)
    requires at <= |order| && Covers(order, b)
    ensures Covers(Inserted(order, at, b), b + 1)
  {
    var o := Inserted(order, at, b);
    forall c: nat | c < b + 1
      ensures c in o
    {
      if c < b {
        assert c in order;
        var k :| 0 <= k < |order| && order[k] == c;
        assert o[if k < at then k else k + 1] == c;
      } else {
        assert o[at] == b;
      }
    }
  }

  lemma InsertedDescends(scores: seq<real>, order: seq<nat>, at: nat, b: nat)
    requires at <= |order| && b < |scores| && Descends(scores, order)
    requires forall k | at <= k < |order| :: scores[order[k]] < scores[b]
    requires at > 0 ==> scores[order[at - 1]] >= scores[b]
    ensures Descends(scores, Inserted(order, at, b))
  {
    var o := Inserted(order, at, b);
    forall i, j | 0 <= i < j < |o|
      ensures scores[o[i]] >= scores[o[j]]
    {
      if i < at - 1 {
        assert scores[order[i]] >= scores[order[at - 1]];
      }
    }
  }

  /** Where b goes: behind every block that does not score lower. */
  method Insert(scores: seq<real>, order: seq<nat>, b: nat) returns (o: seq<nat>)
    requires b < |scores| && Covers(order, b) && Descends(scores, order)
    ensures Covers(o, b + 1) && Descends(scores, o)
  {
    var at: int := |order|;
    while at > 0 && scores[order[at - 1]] < scores[b]
      invariant 0 <= at <= |order|
      invariant forall k | at <= k < |order| :: scores[order[k]] < scores[b]
    {
      at := at - 1;
    }
    o := order[..at] + [b] + order[at..];
    InsertedCovers(order, at, b);
    InsertedDescends(scores, order, at, b);
  }

  method SortBlocks(scores: seq<real>) returns (order: seq<nat>)
    ensures IsSort(scores, order)
  {
    order := [];
    for b := 0 to |scores|
      invariant Covers(order, b) && Descends(scores, order)
    {
      order := Insert(scores, order, b);
    }
  }

  /** A sort lists each block once. */
  lemma {:induction false} DistinctCounts(s: seq<nat>)
    requires Distinct(s)
    ensures |Elements(s)| == |s|
  {
    if s != [] {
      var n := |s| - 1;
      DistinctCounts(s[..n]);
      assert Elements(s) == Elements(s[..n]) + {s[n]};
    }
  }

  function Elements(s: seq<nat>): set<nat> { set k | 0 <= k < |s| :: s[k] }

  lemma CoversLength(order: seq<nat>, m: nat)
    requires Covers(order, m)
    ensures |order| == m
  {
    DistinctCounts(order);
    forall b | b in Below(m)
      ensures b in Elements(order)
    {
      assert b in order;
      var k :| 0 <= k < |order| && order[k] == b;
    }
    assert Elements(order) == Below(m);
    BelowCounts(m);
  }

  function Below(m: nat): (s: set<nat>)
    ensures forall b: nat :: b in s <==> b < m
  {
    if m == 0 then {} else Below(m - 1) + {m - 1}
  }

  lemma {:induction false} BelowCounts(m: nat)
    ensures |Below(m)| == m
  {
    if m > 0 {
      BelowCounts(m - 1);
    }
  }

  // ----- How many blocks each tier gets

  datatype Tier = Q8 | Q4 | Rest

  /** A planned count times nb / alloc, cut to an integer. */
  function Scale(x: nat, nb: nat, alloc: nat): (c: nat)
    requires alloc > 0
  {
    MulNonNegative(x as real, nb as real / alloc as real);
    Times(x as real, nb as real / alloc as real).Floor
  }

  /** The counts of the two top tiers, scaled down when more blocks were planned than exist. */
  function TopCounts(m: Mix, nb: nat): (nat, nat) {
    if Alloc(m) > nb then (Scale(m.o8, nb, Alloc(m)), Scale(m.o4, nb, Alloc(m))) else (m.o8, m.o4)
  }

  function Min(a: nat, b: nat): nat { if a < b then a else b }

  lemma ScaledBack(x: real, nb: real, alloc: real)
    requires alloc > 0.0
    ensures Times(Times(x, nb / alloc), alloc) == x * nb
  {
    var r := nb / alloc;
    assert r * alloc == nb;
    assert (x * r) * alloc == x * (r * alloc);
  }

  lemma IntTimes(x: nat, y: nat)
    ensures (x * y) as real == Times(x as real, y as real)
  {
  }

  lemma ScaleFits(x: nat, nb: nat, alloc: nat)
    requires nb < alloc
    ensures alloc * Scale(x, nb, alloc) <= x * nb < alloc * (Scale(x, nb, alloc) + 1)
  {
    var p, a := Times(x as real, nb as real / alloc as real), alloc as real;
    var c := Scale(x, nb, alloc);
    ScaledBack(x as real, nb as real, a);
    assert Times(x as real, nb as real) == Times(p, a);
    assert c as real <= p < c as real + 1.0;
    hide Times, Scale;
    TimesOrder(c as real, p, a);
    TimesOrder(p, c as real + 1.0, a);
    IntTimes(x, nb);
    IntTimes(c, alloc);
    IntTimes(c + 1, alloc);
  }

  lemma TimesOrder(x: real, y: real, a: real)
    requires a > 0.0
    ensures x < y ==> Times(x, a) < Times(y, a)
    ensures x <= y ==> Times(x, a) <= Times(y, a)
  {
    assert y * a - x * a == (y - x) * a;
  }

  lemma ScaleShrinks(x: nat, c: nat, nb: nat, alloc: nat)
    requires nb < alloc && alloc * c <= x * nb
    ensures c <= x
  {
    assert x * (alloc - nb) >= 0;
    assert alloc * (x - c) >= 0;
  }

  /** Scaled counts are the planned ones times nb / alloc, rounded down; together they never
      exceed the number of blocks, so none of them is cut short later. */
  lemma TopCountsFit(m: Mix, nb: nat)
    requires Alloc(m) > nb
    ensures var (c8, c4) := TopCounts(m, nb);
            && c8 + c4 <= nb && c8 <= m.o8 && c4 <= m.o4
            && Alloc(m) * c8 <= m.o8 * nb < Alloc(m) * (c8 + 1)
            && Alloc(m) * c4 <= m.o4 * nb < Alloc(m) * (c4 + 1)
  {
    var (c8, c4) := TopCounts(m, nb);
    var alloc := Alloc(m);
    hide Scale;
    ScaleFits(m.o8, nb, alloc);
    ScaleFits(m.o4, nb, alloc);
    ScaleShrinks(m.o8, c8, nb, alloc);
    ScaleShrinks(m.o4, c4, nb, alloc);
    SumFits(alloc, c8, c4, m.o8, m.o4, nb);
  }

  lemma SumFits(alloc: nat, c8: nat, c4: nat, o8: nat, o4: nat, nb: nat)
    requires alloc > nb && o8 + o4 <= alloc && alloc * c8 <= o8 * nb && alloc * c4 <= o4 * nb
    ensures c8 + c4 <= nb
  {
    assert alloc * (c8 + c4) <= (o8 + o4) * nb <= alloc * nb by {
      assert (alloc - (o8 + o4)) * nb >= 0;
    }
  }

  // ----- Assignment

  /** The tier of the block in place k of the sorted order. */
  function TierOfRank(k: nat, o8: nat, o4: nat): Tier {
    if k < o8 then Q8 else if k < o8 + o4 then Q4 else Rest
  }

  predicate Assigned(assign: seq<Tier>, order: seq<nat>, o8: nat, o4: nat) {
    |assign| == |order| && Covers(order, |order|)
    && forall k | 0 <= k < |order| :: assign[order[k]] == TierOfRank(k, o8, o4)
  }

  method AssignTiers(order: seq<nat>, o8: nat, o4: nat) returns (assign: array<Tier>)
    requires Covers(order, |order|)
    ensures Assigned(assign[..], order, o8, o4)
  {
    var nb := |order|;
    assign := new Tier[nb](_ => Rest);
    var idx, i := 0, 0;
    while i < o8 && idx < nb
      invariant i == idx <= nb && i <= o8
      invariant forall k | 0 <= k < idx :: assign[order[k]] == Q8
    {
      assign[order[idx]] := Q8;
      i, idx := i + 1, idx + 1;
    }
    i := 0;
    ghost var top := idx;
    while i < o4 && idx < nb
      invariant idx == top + i <= nb && i <= o4
      invariant forall k | 0 <= k < idx :: assign[order[k]] == TierOfRank(k, o8, o4)
    {
      assign[order[idx]] := Q4;
      i, idx := i + 1, idx + 1;
    }
    for k := idx to nb
      invariant forall l | 0 <= l < k :: assign[order[l]] == TierOfRank(l, o8, o4)
    {
      assign[order[k]] := Rest;
    }
  }

  function InTier(assign: seq<Tier>, t: Tier): set<nat> {
    set b | 0 <= b < |assign| && assign[b] == t
  }

  lemma RangeOfRanks(assign: seq<Tier>, order: seq<nat>, o8: nat, o4: nat, t: Tier, lo: nat, hi: nat)
    requires Assigned(assign, order, o8, o4) && lo <= hi <= |order|
    requires forall k: nat | k < |order| :: TierOfRank(k, o8, o4) == t <==> lo <= k < hi
    ensures |InTier(assign, t)| == hi - lo
  {
    var s := order[lo..hi];
    DistinctCounts(s);
    forall b | b in InTier(assign, t)
      ensures b in Elements(s)
    {
      assert b in order;
      var k :| 0 <= k < |order| && order[k] == b;
      assert s[k - lo] == b;
    }
    forall b | b in Elements(s)
      ensures b in InTier(assign, t)
    {
      var k :| 0 <= k < |s| && s[k] == b;
      assert order[lo + k] == b;
    }
    assert InTier(assign, t) == Elements(s);
  }

  /** Each block has one tier; the top tiers are filled in turn, as far as there are blocks. */
  lemma TierSizes(assign: seq<Tier>, order: seq<nat>, o8: nat, o4: nat)
    requires Assigned(assign, order, o8, o4)
    ensures var nb := |assign|;
            && |InTier(assign, Q8)| == Min(o8, nb)
            && |InTier(assign, Q4)| == Min(o4, nb - Min(o8, nb))
            && |InTier(assign, Rest)| == nb - Min(o8, nb) - Min(o4, nb - Min(o8, nb))
  {
    hide InTier;
    var nb := |assign|;
    var top := Min(o8, nb);
    var next := top + Min(o4, nb - top);
    RangeOfRanks(assign, order, o8, o4, Q8, 0, top);
    RangeOfRanks(assign, order, o8, o4, Q4, top, next);
    RangeOfRanks(assign, order, o8, o4, Rest, next, nb);
  }

  function Rank(t: Tier): nat {
    match t
    case Q8 => 0
    case Q4 => 1
    case Rest => 2
  }

  /** No block of a higher tier scores below a block of a lower one. */
  lemma HigherTiersScoreHigher(scores: seq<real>, assign: seq<Tier>, order: seq<nat>,
                               o8: nat, o4: nat, b: nat, c: nat)
    requires IsSort(scores, order) && Assigned(assign, order, o8, o4)
    requires b < |assign| && c < |assign| && Rank(assign[b]) < Rank(assign[c])
    ensures b < |scores| && c < |scores| && scores[b] >= scores[c]
  {
    CoversLength(order, |scores|);
    assert b in order && c in order;
    var i :| 0 <= i < |order| && order[i] == b;
    var j :| 0 <= j < |order| && order[j] == c;
    assert i < j;
  }

  // ----- Writing the blocks and measuring the width

  datatype Format = Format(bpw: real)

  datatype Formats = Formats(f8: Format, f4: Format, rest: Format)

  function FormatOf(fs: Formats, t: Tier): Format {
    match t
    case Q8 => fs.f8
    case Q4 => fs.f4
    case Rest => fs.rest
  }

  /** Quantizing and dequantizing a block with a format of the registry, None when it fails:
      any function. */
  type Registry = (Format, seq<real>) -> Option<seq<real>>

  ghost predicate KeepsLength(reg: Registry) {
    forall f: Format, x: seq<real> :: reg(f, x).Some? ==> |reg(f, x).value| == |x|
  }

  /** What a block comes back as: itself, when the format fails on it. */
  function BlockResult(reg: Registry, f: Format, x: seq<real>): seq<real> {
    match reg(f, x)
    case Some(y) => y
    case None => x
  }

  /** What element i comes back as. */
  function ResultAt(reg: Registry, fs: Formats, data: seq<real>, assign: seq<Tier>, i: nat): real
    requires i < |data| && |assign| == Blocks(|data|)
    requires |ResultOf(reg, fs, data, assign, i / BSZ)| == End(i / BSZ, |data|) - Start(i / BSZ)
  {
    BlockOfElement(i, |data|, i / BSZ);
    ResultOf(reg, fs, data, assign, i / BSZ)[i - Start(i / BSZ)]
  }

  function ResultOf(reg: Registry, fs: Formats, data: seq<real>, assign: seq<Tier>, b: nat): seq<real>
    requires b < Blocks(|data|) == |assign|
  {
    BlockFits(b, |data|);
    BlockResult(reg, FormatOf(fs, assign[b]), data[Start(b)..End(b, |data|)])
  }

  lemma ResultLength(reg: Registry, fs: Formats, data: seq<real>, assign: seq<Tier>, b: nat)
    requires b < Blocks(|data|) == |assign| && KeepsLength(reg)
    ensures End(b, |data|) - Start(b) >= 0
    ensures |ResultOf(reg, fs, data, assign, b)| == End(b, |data|) - Start(b)
  {
    BlockFits(b, |data|);
  }

  /** Bits of the first n elements, element by element. */
  function Bits(fs: Formats, assign: seq<Tier>, n: nat): real
    requires n <= |assign| * BSZ
  {
    if n == 0 then 0.0
    else Bits(fs, assign, n - 1) + FormatOf(fs, assign[(n - 1) / BSZ]).bpw
  }

  lemma {:induction false} BitsOfStretch(fs: Formats, assign: seq<Tier>, b: nat, lo: nat, hi: nat)
    requires b < |assign| && b * BSZ <= lo <= hi <= b * BSZ + BSZ
    ensures hi <= |assign| * BSZ
    ensures Bits(fs, assign, hi)
         == Bits(fs, assign, lo) + Times(FormatOf(fs, assign[b]).bpw, (hi - lo) as real)
    decreases hi
  {
    hide Times;
    var w := FormatOf(fs, assign[b]).bpw;
    TimesOneMore(w, (hi - lo) as real);
    if lo < hi {
      assert (hi - 1) / BSZ == b;
      BitsOfStretch(fs, assign, b, lo, hi - 1);
      TimesOneMore(w, (hi - 1 - lo) as real);
    }
  }

  lemma TimesOneMore(w: real, k: real)
    ensures Times(w, k + 1.0) == Times(w, k) + w && Times(w, 0.0) == 0.0
  {
  }

  /** Elements below n whose block has tier t. */
  function Length(assign: seq<Tier>, t: Tier, n: nat): (l: nat)
    requires n <= |assign| * BSZ
  {
    if n == 0 then 0
    else Length(assign, t, n - 1) + (if assign[(n - 1) / BSZ] == t then 1 else 0)
  }

  /** The width achieved is the mean of the three widths, weighted by the lengths assigned. */
  lemma {:induction false} BitsAreWeighted(fs: Formats, assign: seq<Tier>, n: nat)
    requires n <= |assign| * BSZ
    ensures Length(assign, Q8, n) + Length(assign, Q4, n) + Length(assign, Rest, n) == n
    ensures Bits(fs, assign, n)
         == Times(fs.f8.bpw, Length(assign, Q8, n) as real) + Times(fs.f4.bpw, Length(assign, Q4, n) as real)
            + Times(fs.rest.bpw, Length(assign, Rest, n) as real)
  {
    hide Times;
    var l8: int, l4: int, rest: int := Length(assign, Q8, n), Length(assign, Q4, n), Length(assign, Rest, n);
    TimesOneMore(fs.f8.bpw, (l8 - 1) as real);
    TimesOneMore(fs.f4.bpw, (l4 - 1) as real);
    TimesOneMore(fs.rest.bpw, (rest - 1) as real);
    if n > 0 {
      BitsAreWeighted(fs, assign, n - 1);
    }
  }

  method ScoreBlocks(data: seq<real>) returns (scores: seq<real>)
    ensures scores == Scores(data)
  {
    hide SumAbs;
    scores := [];
    for b := 0 to Blocks(|data|)
      invariant scores == Scores(data)[..b]
    {
      BlockFits(b, |data|);
      var s, e := b * BSZ, if b * BSZ + BSZ < |data| then b * BSZ + BSZ else |data|;
      var sc := AbsSum(data[s..e]);
      scores := scores + [sc / (e - s) as real];
    }
  }

  method AbsSum(x: seq<real>) returns (sc: real)
    ensures sc == SumAbs(x)
  {
    sc := 0.0;
    for i := 0 to |x|
      invariant sc == SumAbs(x[..i])
    {
      assert x[..i + 1][..i] == x[..i];
      sc := sc + if x[i] < 0.0 then -x[i] else x[i];
    }
    assert x[..|x|] == x;
  }

  method CopyTo(deq: array<real>, s: nat, x: seq<real>)
    requires s + |x| <= deq.Length
    modifies deq
    ensures deq[..] == old(deq[..s]) + x + old(deq[s + |x|..])
  {
    for i := 0 to |x|
      invariant deq[..s + i] == old(deq[..s]) + x[..i]
      invariant deq[s + i..] == old(deq[s + i..])
    {
      deq[s + i] := x[i];
    }
  }

  /** The blocks below b have been written, whole. */
  ghost predicate Written(deq: seq<real>, reg: Registry, fs: Formats, data: seq<real>, assign: seq<Tier>, b: nat)
    requires |deq| == |data| && |assign| == Blocks(|data|) && KeepsLength(reg)
  {
    forall c | 0 <= c < b && c < Blocks(|data|) ::
      (BlockFits(c, |data|); deq[Start(c)..End(c, |data|)] == ResultOf(reg, fs, data, assign, c))
  }

  lemma SliceOfSplice(was: seq<real>, mid: seq<real>, s: nat, e: nat, lo: nat, hi: nat)
    requires lo <= hi <= s <= e <= |was| && |mid| == e - s
    ensures (was[..s] + mid + was[e..])[lo..hi] == was[lo..hi]
  {
  }

  lemma WrittenStep(was: seq<real>, deq: seq<real>, reg: Registry, fs: Formats,
                    data: seq<real>, assign: seq<Tier>, b: nat)
    requires |was| == |deq| == |data| && b < Blocks(|data|) == |assign| && KeepsLength(reg)
    requires Written(was, reg, fs, data, assign, b) && Start(b) <= End(b, |data|) <= |data|
    requires deq == was[..Start(b)] + ResultOf(reg, fs, data, assign, b) + was[End(b, |data|)..]
    ensures Written(deq, reg, fs, data, assign, b + 1)
  {
    ResultLength(reg, fs, data, assign, b);
    hide ResultOf, KeepsLength;
    forall c | 0 <= c < b + 1 && c < Blocks(|data|)
      ensures Start(c) <= End(c, |data|) <= |data|
      ensures deq[Start(c)..End(c, |data|)] == ResultOf(reg, fs, data, assign, c)
    {
      BlockFits(c, |data|);
      if c < b {
        assert Start(c) <= End(c, |data|) <= Start(b);
        SliceOfSplice(was, ResultOf(reg, fs, data, assign, b), Start(b), End(b, |data|), Start(c), End(c, |data|));
      }
    }
  }

  method WriteBlocks(reg: Registry, fs: Formats, data: seq<real>, assign: seq<Tier>, deq: array<real>)
    returns (tbpw: real)
    requires |assign| == Blocks(|data|) && deq.Length == |data| && KeepsLength(reg)
    modifies deq
    ensures Written(deq[..], reg, fs, data, assign, |assign|)
    ensures tbpw == Bits(fs, assign, |data|)
  {
    hide KeepsLength, Bits, Written;
    tbpw := 0.0;
    NothingWritten(deq[..], reg, fs, data, assign);
    for b := 0 to |assign|
      invariant Written(deq[..], reg, fs, data, assign, b)
      invariant tbpw == Bits(fs, assign, if b < |assign| then Start(b) else |data|)
    {
      BlockFits(b, |data|);
      ResultLength(reg, fs, data, assign, b);
      var s, e := b * BSZ, if b * BSZ + BSZ < |data| then b * BSZ + BSZ else |data|;
      var f := FormatOf(fs, assign[b]);
      ghost var was := deq[..];
      match reg(f, data[s..e]) {
        case Some(y) => CopyTo(deq, s, y);
        case None => CopyTo(deq, s, data[s..e]);
      }
      WrittenStep(was, deq[..], reg, fs, data, assign, b);
      BitsOfStretch(fs, assign, b, s, e);
      assert Times(f.bpw, (e - s) as real) == f.bpw * (e - s) as real;
      tbpw := tbpw + f.bpw * (e - s) as real;
    }
  }

  lemma NothingWritten(deq: seq<real>, reg: Registry, fs: Formats, data: seq<real>, assign: seq<Tier>)
    requires |deq| == |data| && |assign| == Blocks(|data|) && KeepsLength(reg)
    ensures Written(deq, reg, fs, data, assign, 0)
    ensures Bits(fs, assign, 0) == 0.0
  {
  }

  /** Element i is written by its own block, and by no other. */
  lemma ElementResult(deq: seq<real>, reg: Registry, fs: Formats, data: seq<real>, assign: seq<Tier>, i: nat)
    requires |deq| == |data| && |assign| == Blocks(|data|) && KeepsLength(reg) && i < |data|
    requires Written(deq, reg, fs, data, assign, |assign|)
    ensures i / BSZ < |assign|
    ensures |ResultOf(reg, fs, data, assign, i / BSZ)| == End(i / BSZ, |data|) - Start(i / BSZ)
    ensures deq[i] == ResultAt(reg, fs, data, assign, i)
  {
    var b := i / BSZ;
    BlockOfElement(i, |data|, b);
    BlockFits(b, |data|);
    ResultLength(reg, fs, data, assign, b);
    hide ResultOf, KeepsLength;
    assert deq[i] == deq[Start(b)..End(b, |data|)][i - Start(b)];
  }

  /** Element i comes back as its block of 256 does from its format, or as it is where the format
      fails. */
  lemma ElementComesBack(deq: seq<real>, reg: Registry, fs: Formats, data: seq<real>, assign: seq<Tier>, i: nat)
    requires |deq| == |data| && |assign| == Blocks(|data|) && KeepsLength(reg) && i < |data|
    requires Written(deq, reg, fs, data, assign, |assign|)
    ensures i / 256 < |assign|
    ensures var lo := i / 256 * 256;
            var block := data[lo..if lo + 256 < |data| then lo + 256 else |data|];
            match reg(FormatOf(fs, assign[i / 256]), block)
            case None => deq[i] == data[i]
            case Some(y) => |y| == |block| && deq[i] == y[i - lo]
  {
    ElementResult(deq, reg, fs, data, assign, i);
    hide Written;
  }

  method ScaleCounts(mix: Mix, nb: nat) returns (o8: nat, o4: nat)
    ensures (o8, o4) == TopCounts(mix, nb)
  {
    hide Scale;
    var alloc := Alloc(mix);
    o8, o4 := mix.o8, mix.o4;
    if alloc > nb {
      o8, o4 := Scale(o8, nb, alloc), Scale(o4, nb, alloc);
    }
  }

  /** `mix_quantize_dequantize`; with no data the mean is 0 / 0, which is None here. */
  method MixQuantizeDequantize(data: seq<real>, target: real, fs: Formats, reg: Registry, deq: array<real>)
    returns (achieved: Option<real>, ghost order: seq<nat>, ghost tiers: seq<Tier>)
    requires deq.Length == |data| && KeepsLength(reg)
    modifies deq
    ensures IsSort(Scores(data), order) && |tiers| == Blocks(|data|)
    ensures var (o8, o4) := TopCounts(MixFor(|tiers|, target), |tiers|); Assigned(tiers, order, o8, o4)
    ensures Written(deq[..], reg, fs, data, tiers, |tiers|)
    ensures achieved == if data == [] then None else Some(Bits(fs, tiers, |data|) / |data| as real)
  {
    hide KeepsLength, Bits, Written, TopCounts, MixFor;
    var scores := ScoreBlocks(data);
    var sorted := SortBlocks(scores);
    CoversLength(sorted, |scores|);
    var mix := ComputeFormatMix(|scores|, target);
    var o8, o4 := ScaleCounts(mix, |scores|);
    var assign := AssignTiers(sorted, o8, o4);
    var tbpw := WriteBlocks(reg, fs, data, assign[..], deq);
    order, tiers := sorted, assign[..];
    achieved := if data == [] then None else Some(tbpw / |data| as real);
  }

  /** The width achieved lies between the narrowest and the widest format used. */
  lemma {:induction false} BitsBetween(fs: Formats, assign: seq<Tier>, n: nat, lo: real, hi: real)
    requires n <= |assign| * BSZ
    requires forall t: Tier :: lo <= FormatOf(fs, t).bpw <= hi
    ensures Times(lo, n as real) <= Bits(fs, assign, n) <= Times(hi, n as real)
  {
    hide Times, FormatOf;
    TimesOneMore(lo, (n - 1) as real);
    TimesOneMore(hi, (n - 1) as real);
    if n > 0 {
      BitsBetween(fs, assign, n - 1, lo, hi);
    }
  }
}
