/** Codebook indices of four bits, two to a byte: the read-modify-write packing of
    `bench/bench_gpt2_inference.cpp` and the search-and-pack loop of `bench/bench_quality.cpp`. */
module Nibble {
  import opened Lloyd
  import opened NearestSearch

  // ----- One byte

  function Low(p: bv8): bv8 { p & 0x0F }

  function High(p: bv8): bv8 { (p >> 4) & 0x0F }

  function WithLow(p: bv8, v: bv8): bv8 { (p & 0xF0) | v }

  function WithHigh(p: bv8, v: bv8): bv8 { (p & 0x0F) | (v << 4) }

  lemma HalvesOfByte(p: bv8, v: bv8)
    requires v < 16
    ensures Low(WithLow(p, v)) == v && High(WithLow(p, v)) == High(p)
    ensures High(WithHigh(p, v)) == v && Low(WithHigh(p, v)) == Low(p)
  {
  }

  lemma HalvesOfPair(hi: bv8, lo: bv8)
    requires hi < 16 && lo < 16
    ensures Low((hi << 4) | lo) == lo && High((hi << 4) | lo) == hi
  {
  }

  lemma HalvesAreSmall(p: bv8)
    ensures 0 <= Low(p) as int < 16 && 0 <= High(p) as int < 16
  {
  }

  // ----- An array of bytes as an array of indices

  function Get(packed: seq<bv8>, i: nat): (v: bv8)
    requires i / 2 < |packed|
    ensures 0 <= v as int < 16
  {
    HalvesAreSmall(packed[i / 2]);
    if i % 2 == 0 then Low(packed[i / 2]) else High(packed[i / 2])
  }

  function Put(packed: seq<bv8>, i: nat, v: bv8): (p: seq<bv8>)
    requires i / 2 < |packed|
    ensures |p| == |packed|
  {
    packed[i / 2 := if i % 2 == 0 then WithLow(packed[i / 2], v) else WithHigh(packed[i / 2], v)]
  }

  /** A write is read back where it was made, and disturbs no other position, in particular
      not the one in the same byte. */
  lemma GetPut(packed: seq<bv8>, i: nat, v: bv8, j: nat)
    requires i / 2 < |packed| && j / 2 < |packed| && v < 16
    ensures Get(Put(packed, i, v), j) == if i == j then v else Get(packed, j)
  {
    hide Low, High, WithLow, WithHigh;
    HalvesOfByte(packed[i / 2], v);
    assert i / 2 == j / 2 && i % 2 == j % 2 ==> i == j;
  }

  /** The even position of a byte is its low half, the odd one its high half. */
  lemma LayoutIs(packed: seq<bv8>, k: nat)
    requires k < |packed|
    ensures packed[k] as int == 16 * Get(packed, 2 * k + 1) as int + Get(packed, 2 * k) as int
  {
    HalvesOfWhole(packed[k]);
    hide Low, High;
  }

  lemma HalvesOfWhole(p: bv8)
    ensures p as int == 16 * High(p) as int + Low(p) as int
  {
    assert p == (High(p) << 4) + Low(p);
    assert p as int == 16 * (p as int / 16) + p as int % 16;
  }

  datatype Write = Write(at: nat, index: bv8)

  predicate Fits(ws: seq<Write>, bytes: nat) {
    forall k | 0 <= k < |ws| :: ws[k].at / 2 < bytes && ws[k].index < 16
  }

  function PutAll(packed: seq<bv8>, ws: seq<Write>): (p: seq<bv8>)
    requires Fits(ws, |packed|)
    ensures |p| == |packed|
  {
    if ws == [] then packed
    else
      var w := ws[|ws| - 1];
      Put(PutAll(packed, ws[..|ws| - 1]), w.at, w.index)
  }

  /** The index last written at position i, or else the one that was there. */
  function LastAt(ws: seq<Write>, i: nat, before: bv8): bv8 {
    if ws == [] then before
    else if ws[|ws| - 1].at == i then ws[|ws| - 1].index
    else LastAt(ws[..|ws| - 1], i, before)
  }

  /** After any sequence of writes every position holds the index last written there. */
  lemma {:induction false} GetPutAll(packed: seq<bv8>, ws: seq<Write>, i: nat)
    requires Fits(ws, |packed|) && i / 2 < |packed|
    ensures Get(PutAll(packed, ws), i) == LastAt(ws, i, Get(packed, i))
  {
    hide Get, Put;
    if ws != [] {
      var w := ws[|ws| - 1];
      GetPutAll(packed, ws[..|ws| - 1], i);
      GetPut(PutAll(packed, ws[..|ws| - 1]), w.at, w.index, i);
    }
  }

  method Store(packed: array<bv8>, flat: nat, idx: bv8)
    requires flat / 2 < packed.Length
    modifies packed
    ensures packed[..] == Put(old(packed[..]), flat, idx)
  {
    if flat % 2 == 0 {
      packed[flat / 2] := (packed[flat / 2] & 0xF0) | idx;
    } else {
      packed[flat / 2] := (packed[flat / 2] & 0x0F) | (idx << 4);
    }
  }

  lemma GetIs(packed: seq<bv8>, i: nat, v: bv8)
    requires i / 2 < |packed|
    requires v == if i % 2 == 0 then packed[i / 2] & 0x0F else (packed[i / 2] >> 4) & 0x0F
    ensures Get(packed, i) == v
  {
  }

  function Lookup(book: seq<real>, v: bv8): real
    requires |book| == 16 && 0 <= v as int < 16
  {
    book[v as int]
  }

  predicate Stands(byte: bv8, k: nat) { byte as int == k }

  lemma ByteStands(k: nat)
    requires k < 256
    ensures Stands(k as bv8, k)
  {
  }

  // ----- `quantize_quant4` and `quantize_quant8`

  /** The squared distance their searches start from. */
  const FAR: real := 1000000000000000000000000000000.0

  /** Both searches of one byte, side by side. */
  method FindPair(v0: real, v1: real, cb: seq<real>) returns (best0: nat, best1: nat)
    ensures best0 == Best(v0, cb, FAR) && best1 == Best(v1, cb, FAR)
  {
    best0, best1 := 0, 0;
    var d0, d1 := FAR, FAR;
    for c := 0 to |cb|
      invariant (best0, d0) == Search(v0, cb[..c], FAR) && (best1, d1) == Search(v1, cb[..c], FAR)
    {
      assert cb[..c + 1][..c] == cb[..c];
      var e0, e1 := v0 - cb[c], v1 - cb[c];
      assert Sq(e0) == e0 * e0 && Sq(e1) == e1 * e1;
      if e0 * e0 < d0 {
        d0, best0 := e0 * e0, c;
      }
      if e1 * e1 < d1 {
        d1, best1 := e1 * e1, c;
      }
    }
    assert cb[..|cb|] == cb;
  }

  method QuantizeQuant8(src: seq<real>, dst: array<bv8>, cb: seq<real>)
    requires |cb| == 256 && dst.Length == |src|
    modifies dst
    ensures forall i | 0 <= i < |src| :: Stands(dst[i], Best(src[i], cb, FAR))
  {
    hide Best, Stands;
    for i := 0 to |src|
      invariant forall k | 0 <= k < i :: Stands(dst[k], Best(src[k], cb, FAR))
    {
      var best := FindBest(src[i], cb, FAR);
      ByteStands(best);
      dst[i] := best as bv8;
    }
  }

  /** The value searched for position i: a missing second of a pair is read as zero. */
  function Padded(src: seq<real>, i: nat): real { if i < |src| then src[i] else 0.0 }

  method QuantizeQuant4(src: seq<real>, dst: array<bv8>, cb: seq<real>)
    requires |cb| == 16 && dst.Length == (|src| + 1) / 2
    modifies dst
    ensures forall i | 0 <= i < 2 * dst.Length :: Get(dst[..], i) as int == Best(Padded(src, i), cb, FAR)
  {
    hide Get, Best;
    var i := 0;
    while i < |src|
      invariant i % 2 == 0
      invariant forall k | 0 <= k < i && k / 2 < dst.Length :: Get(dst[..], k) as int == Best(Padded(src, k), cb, FAR)
      decreases |src| - i
    {
      var v1 := if i + 1 < |src| then src[i + 1] else 0.0;
      var best0, best1 := FindPair(src[i], v1, cb);
      ghost var was := dst[..];
      PairIs(best1, best0);
      dst[i / 2] := ((best1 as bv8) << 4) | (best0 as bv8);
      GetPair(was, i / 2, best1, best0);
      i := i + 2;
    }
  }

  lemma PairIs(hi: nat, lo: nat)
    requires hi < 16 && lo < 16
    ensures Low(((hi as bv8) << 4) | (lo as bv8)) as int == lo
    ensures High(((hi as bv8) << 4) | (lo as bv8)) as int == hi
  {
    HalvesOfPair(hi as bv8, lo as bv8);
  }

  lemma GetPair(packed: seq<bv8>, k: nat, hi: nat, lo: nat)
    requires k < |packed| && hi < 16 && lo < 16
    ensures var p := packed[k := ((hi as bv8) << 4) | (lo as bv8)];
            && Get(p, 2 * k) as int == lo && Get(p, 2 * k + 1) as int == hi
            && forall i: nat | i / 2 < |packed| && i / 2 != k :: Get(p, i) == Get(packed, i)
  {
    PairIs(hi, lo);
    hide Low, High;
  }

  /** The decode loop of the benchmark, two positions a round. */
  method DecodeQuant4(packed: seq<bv8>, cb: seq<real>, n: nat) returns (decoded: array<real>)
    requires |packed| == (n + 1) / 2 && |cb| == 16
    ensures decoded.Length == n && forall i | 0 <= i < n :: decoded[i] == Lookup(cb, Get(packed, i))
  {
    hide Get;
    decoded := new real[n](_ => 0.0);
    var i := 0;
    while i < n
      invariant i % 2 == 0
      invariant forall k | 0 <= k < i && k < n :: decoded[k] == Lookup(cb, Get(packed, k))
      decreases n - i
    {
      var lo, hi := packed[i / 2] & 0x0F, (packed[i / 2] >> 4) & 0x0F;
      GetIs(packed, i, lo);
      decoded[i] := cb[lo as int];
      if i + 1 < n {
        GetIs(packed, i + 1, hi);
        decoded[i + 1] := cb[hi as int];
      }
      i := i + 2;
    }
  }

  /** Quantizing and decoding: every weight comes back as a codebook entry, and as a nearest
      one exactly if the search reached one or the first entry is nearest anyway. */
  method RoundTripQuant4(src: seq<real>, cb: seq<real>) returns (decoded: array<real>)
    requires |cb| == 16
    ensures decoded.Length == |src|
    ensures forall i | 0 <= i < |src| ::
              && decoded[i] in cb
              && ((forall c | 0 <= c < 16 :: Sq(src[i] - decoded[i]) <= Sq(src[i] - cb[c]))
                  <==> InReach(src[i], cb, FAR) || Minimal(src[i], cb, 0))
  {
    var packed := new bv8[(|src| + 1) / 2](_ => 0);
    QuantizeQuant4(src, packed, cb);
    decoded := DecodeQuant4(packed[..], cb, |src|);
    hide Get, Best, InReach, Sq;
    forall i | 0 <= i < |src|
      ensures decoded[i] == cb[Best(src[i], cb, FAR)]
      ensures Minimal(src[i], cb, Best(src[i], cb, FAR)) <==> InReach(src[i], cb, FAR) || Minimal(src[i], cb, 0)
    {
      BestIsMinimalIff(src[i], cb, FAR);
      assert Padded(src, i) == src[i];
    }
  }
}
