/** The four-bit part of `quantize_weight` in `bench/bench_gpt2_inference.cpp`, with
    `dequantize_quant4`: a codebook for every block of 1024 weights, one index of four bits for
    every weight. */
module WeightCodec {
  import CodebookHalf
  import Half
  import Shifts
  import opened Codebook4
  import opened Lloyd
  import opened LloydChain
  import opened NearestSearch
  import opened Nibble
  import opened Reals

  const BLOCK4: nat := 1024

  /** What the blocks' training leaves open: the shuffle of so many positions, and the binary32
      a trained codeword is. */
  datatype Codec = Codec(shuffle: nat -> seq<nat>, bits: real -> Half.F32)

  function Shuffle(codec: Codec, n: nat): seq<nat> { codec.shuffle(n) }

  function BitsOf(codec: Codec, x: real): Half.F32 { codec.bits(x) }

  /** Shuffles are permutations, and 0 and 1 are the binary32 numbers 0 and 1. */
  ghost predicate Sound(codec: Codec) {
    && (forall n: nat :: IsShuffle(Shuffle(codec, n), n))
    && BitsOf(codec, 0.0) == 0 && BitsOf(codec, 1.0) == 0x3F80_0000
  }

  /** Positions as they come; what is not 1 becomes 0. */
  function PlainCodec(): (codec: Codec)
    ensures Sound(codec)
  {
    Codec((n: nat) => seq(n, i => i), (x: real) => if x == 1.0 then 0x3F80_0000 else 0)
  }

  /** The codebook a block is given, after at most so many rounds; the source runs 20. */
  function Book(codec: Codec, block: seq<real>, rounds: nat): (b: seq<real>)
    requires Sound(codec) && block != []
    ensures |b| == SIZE
  {
    assert IsShuffle(Shuffle(codec, |block|), |block|);
    Entries(Trained(block, Shuffle(codec, |block|), rounds, codec.bits))
  }

  function BlockAt(src: seq<real>, i: nat): (block: seq<real>)
    requires i < |src|
    ensures block != []
  {
    var start := i - i % BLOCK4;
    src[start..if start + BLOCK4 < |src| then start + BLOCK4 else |src|]
  }

  function BookAt(codec: Codec, src: seq<real>, i: nat, rounds: nat): (b: seq<real>)
    requires Sound(codec) && i < |src|
    ensures |b| == SIZE
  {
    Book(codec, BlockAt(src, i), rounds)
  }

  /** The index chosen for position i: the nearest entry of its own block's codebook. */
  function IndexAt(codec: Codec, src: seq<real>, i: nat, rounds: nat): (k: nat)
    requires Sound(codec) && i < |src|
    ensures k < SIZE
  {
    Best(src[i], BookAt(codec, src, i, rounds), FLT_MAX)
  }

  /** `codebook_4.resize(16)`. */
  function EmptyBook(): (book: seq<real>)
    ensures |book| == SIZE
  {
    seq(SIZE, _ => 0.0)
  }

  /** The one codebook kept: that of the last block. */
  function Kept(codec: Codec, src: seq<real>, rounds: nat): (book: seq<real>)
    requires Sound(codec)
    ensures |book| == SIZE
  {
    if src == [] then EmptyBook() else BookAt(codec, src, |src| - 1, rounds)
  }

  /** Positions below n hold their index, the others are still zero. */
  ghost predicate Packed(packed: seq<bv8>, codec: Codec, src: seq<real>, rounds: nat, n: nat)
    requires n <= |src| && |packed| == (|src| + 1) / 2 && Sound(codec)
  {
    forall i | 0 <= i < 2 * |packed| :: Get(packed, i) as int == if i < n then IndexAt(codec, src, i, rounds) else 0
  }

  lemma PackedStep(packed: seq<bv8>, codec: Codec, src: seq<real>, rounds: nat, n: nat, v: bv8)
    requires n < |src| && |packed| == (|src| + 1) / 2 && Sound(codec)
    requires Packed(packed, codec, src, rounds, n) && v < 16 && v as int == IndexAt(codec, src, n, rounds)
    ensures Packed(Put(packed, n, v), codec, src, rounds, n + 1)
  {
    hide Get, Put, IndexAt, Sound;
    forall i | 0 <= i < 2 * |packed|
      ensures Get(Put(packed, n, v), i) as int == if i < n + 1 then IndexAt(codec, src, i, rounds) else 0
    {
      GetPut(packed, n, v, i);
    }
  }

  lemma BlockFrom(src: seq<real>, b: nat, bsz: nat, i: nat)
    requires b < |src| && b % BLOCK4 == 0 && i < bsz
    requires bsz == if BLOCK4 < |src| - b then BLOCK4 else |src| - b
    ensures BlockAt(src, b + i) == src[b..b + bsz]
  {
    assert (b + i) % BLOCK4 == i;
  }

  lemma SmallByte(k: nat)
    requires k < SIZE
    ensures (k as bv8) < 16 && (k as bv8) as int == k
  {
  }

  method PackBlock(src: seq<real>, codec: Codec, rounds: nat, b: nat, bsz: nat, packed: array<bv8>)
    returns (book: seq<real>)
    requires b < |src| && b % BLOCK4 == 0 && Sound(codec)
    requires bsz == if BLOCK4 < |src| - b then BLOCK4 else |src| - b
    requires packed.Length == (|src| + 1) / 2 && Packed(packed[..], codec, src, rounds, b)
    modifies packed
    ensures Packed(packed[..], codec, src, rounds, b + bsz)
    ensures book == BookAt(codec, src, b + bsz - 1, rounds)
  {
    hide Get, Put, Packed, BlockAt, Trained, Best;
    var block := src[b..b + bsz];
    var cb := new CodebookQ4();
    assert IsShuffle(Shuffle(codec, bsz), bsz);
    hide Sound;
    cb.Train(block, codec.shuffle(bsz), rounds, codec.bits);
    book := Entries(cb.centroids[..]);
    for i := 0 to bsz
      invariant Packed(packed[..], codec, src, rounds, b + i)
      invariant Entries(cb.centroids[..]) == book == Book(codec, block, rounds)
    {
      BlockFrom(src, b, bsz, i);
      var best := cb.Quantize(src[b + i]);
      SmallByte(best);
      var idx := best as bv8;
      PackedStep(packed[..], codec, src, rounds, b + i, idx);
      Store(packed, b + i, idx);
    }
    BlockFrom(src, b, bsz, bsz - 1);
  }

  method QuantizeWeight4(src: seq<real>, codec: Codec, rounds: nat) returns (packed: array<bv8>, book: seq<real>)
    requires Sound(codec)
    ensures packed.Length == (|src| + 1) / 2 && Packed(packed[..], codec, src, rounds, |src|)
    ensures book == Kept(codec, src, rounds)
  {
    hide BlockAt, Sound, Book, BookAt;
    packed := new bv8[(|src| + 1) / 2](_ => 0);
    book := EmptyBook();
    ZeroIsPacked(packed[..], codec, src, rounds);
    hide Packed;
    var b := 0;
    while b < |src|
      invariant b % BLOCK4 == 0
      invariant Packed(packed[..], codec, src, rounds, if b < |src| then b else |src|)
      invariant |src| == 0 ==> book == EmptyBook()
      invariant b >= |src| > 0 ==> book == BookAt(codec, src, |src| - 1, rounds)
      decreases |src| - b
    {
      var bsz := if BLOCK4 < |src| - b then BLOCK4 else |src| - b;
      book := PackBlock(src, codec, rounds, b, bsz, packed);
      b := b + BLOCK4;
    }
  }

  lemma ZeroIsPacked(packed: seq<bv8>, codec: Codec, src: seq<real>, rounds: nat)
    requires |packed| == (|src| + 1) / 2 && (forall k | 0 <= k < |packed| :: packed[k] == 0) && Sound(codec)
    ensures Packed(packed, codec, src, rounds, 0)
  {
    hide Sound;
  }

  method DequantizeQuant4(packed: seq<bv8>, book: seq<real>, n: nat) returns (dst: array<real>)
    requires n <= 2 * |packed| && |book| == SIZE
    ensures dst.Length == n && forall i | 0 <= i < n :: dst[i] == Lookup(book, Get(packed, i))
  {
    hide Get;
    dst := new real[n];
    for i := 0 to n
      invariant forall k | 0 <= k < i :: dst[k] == Lookup(book, Get(packed, k))
    {
      var byte := packed[i / 2];
      var idx := if i % 2 == 0 then byte & 0x0F else (byte >> 4) & 0x0F;
      GetIs(packed, i, idx);
      dst[i] := book[idx as int];
    }
  }

  /** What position i comes back as, and what its own codebook meant. */
  function Decoded(codec: Codec, src: seq<real>, i: nat, rounds: nat): real
    requires Sound(codec) && i < |src|
  {
    Kept(codec, src, rounds)[IndexAt(codec, src, i, rounds)]
  }

  function Meant(codec: Codec, src: seq<real>, i: nat, rounds: nat): real
    requires Sound(codec) && i < |src|
  {
    BookAt(codec, src, i, rounds)[IndexAt(codec, src, i, rounds)]
  }

  /** Both loops of the benchmark, one after the other. */
  method RoundTripWeight4(src: seq<real>, codec: Codec, rounds: nat) returns (dst: array<real>)
    requires Sound(codec)
    ensures dst.Length == |src| && forall i | 0 <= i < |src| :: dst[i] == Decoded(codec, src, i, rounds)
  {
    hide Get, IndexAt, Kept, Sound;
    var packed, book := QuantizeWeight4(src, codec, rounds);
    dst := DequantizeQuant4(packed[..], book, |src|);
  }

  /** What its own codebook means for a weight is an entry at minimal squared distance, if
      any entry is within reach of the search. */
  lemma MeantIsNearest(codec: Codec, src: seq<real>, i: nat, rounds: nat)
    requires Sound(codec) && i < |src| && InReach(src[i], BookAt(codec, src, i, rounds), FLT_MAX)
    ensures Minimal(src[i], BookAt(codec, src, i, rounds), IndexAt(codec, src, i, rounds))
    ensures forall c | 0 <= c < SIZE ::
              Sq(src[i] - Meant(codec, src, i, rounds)) <= Sq(src[i] - BookAt(codec, src, i, rounds)[c])
  {
    hide BookAt, Sound, Best, Sq, InReach;
    BestIsMinimalIff(src[i], BookAt(codec, src, i, rounds), FLT_MAX);
  }

  /** The codebook of a block is what its own training ends with, narrowed and read again. */
  lemma BookEndsTraining(codec: Codec, block: seq<real>, rounds: nat)
    requires Sound(codec) && block != [] && Sq(Greatest(block) - Least(block)) < FLT_MAX
    ensures |Shuffle(codec, |block|)| == |block| && IsShuffle(Shuffle(codec, |block|), |block|)
    ensures var seeds := Seeds(block, Shuffle(codec, |block|));
            exists c :: EndsTraining(c, block, seeds, 0, SIZE, rounds, 0.0000001) && |c| == SIZE
              && forall j | 0 <= j < SIZE ::
                   Book(codec, block, rounds)[j] == Entry(CodebookHalf.Narrow(BitsOf(codec, c[j])))
  {
    var order := Shuffle(codec, |block|);
    assert IsShuffle(order, |block|);
    hide Seeds, EndsTraining, Trained, Rounds, Sq, OffMean, GainsFirstRound;
    TrainedEndsTraining(block, order, rounds, codec.bits);
    var c := Rounds(block, Seeds(block, order), rounds);
    assert EndsTraining(c, block, Seeds(block, order), 0, SIZE, rounds, 0.0000001);
  }

  /** Of no weights the codebook is sixteen zeros. */
  lemma NoWeights(codec: Codec, rounds: nat)
    requires Sound(codec)
    ensures forall j | 0 <= j < SIZE :: Kept(codec, [], rounds)[j] == 0.0
  {
  }

  // ----- One codebook for all blocks

  ghost predicate DecodesAsMeant(codec: Codec, src: seq<real>, rounds: nat)
    requires Sound(codec)
  {
    forall i | 0 <= i < |src| :: Decoded(codec, src, i, rounds) == Meant(codec, src, i, rounds)
  }

  /** A first block of ones, then zeros. */
  function OnesThenZeros(n: nat): (src: seq<real>)
    ensures |src| == n
  {
    seq(n, i => if 0 <= i < BLOCK4 then 1.0 else 0.0)
  }

  lemma OneBlockDecodes(codec: Codec, src: seq<real>, rounds: nat)
    requires Sound(codec) && |src| <= BLOCK4
    ensures DecodesAsMeant(codec, src, rounds)
  {
    hide Book, Sound, Best, BlockAt;
    forall i | 0 <= i < |src|
      ensures BlockAt(src, i) == BlockAt(src, |src| - 1)
    {
      OnlyBlock(src, i);
      OnlyBlock(src, |src| - 1);
    }
  }

  lemma OnlyBlock(src: seq<real>, i: nat)
    requires i < |src| <= BLOCK4
    ensures BlockAt(src, i) == src
  {
    assert i % BLOCK4 == i;
  }

  /** So up to one block every weight comes back as a nearest entry of the codebook kept. */
  lemma OneBlockIsNearest(codec: Codec, src: seq<real>, i: nat, rounds: nat)
    requires Sound(codec) && |src| <= BLOCK4 && i < |src| && InReach(src[i], Kept(codec, src, rounds), FLT_MAX)
    ensures forall c | 0 <= c < SIZE ::
              Sq(src[i] - Decoded(codec, src, i, rounds)) <= Sq(src[i] - Kept(codec, src, rounds)[c])
  {
    hide Book, Sound, Sq, InReach, Best, BlockAt;
    OneBlockDecodes(codec, src, rounds);
    OnlyBlock(src, i);
    OnlyBlock(src, |src| - 1);
    MeantIsNearest(codec, src, i, rounds);
  }

  /** With more than one block there are weights for which every shuffle fails. */
  lemma MoreBlocksFail(codec: Codec, n: nat, rounds: nat)
    requires Sound(codec) && n > BLOCK4
    ensures Decoded(codec, OnesThenZeros(n), 0, rounds) == 0.0
    ensures Meant(codec, OnesThenZeros(n), 0, rounds) == 1.0 == OnesThenZeros(n)[0]
  {
    hide Book, Sound, Best, BlockAt, OnesThenZeros;
    var src := OnesThenZeros(n);
    ConstantBlocks(n);
    ConstantBook(codec, BlockAt(src, 0), 1.0, rounds);
    ConstantBook(codec, BlockAt(src, n - 1), 0.0, rounds);
  }

  predicate Constant(block: seq<real>, v: real) {
    forall i | 0 <= i < |block| :: block[i] == v
  }

  lemma ConstantBlocks(n: nat)
    requires n > BLOCK4
    ensures OnesThenZeros(n)[0] == 1.0
    ensures Constant(BlockAt(OnesThenZeros(n), 0), 1.0)
    ensures Constant(BlockAt(OnesThenZeros(n), n - 1), 0.0)
  {
    assert (n - 1) - (n - 1) % BLOCK4 >= BLOCK4;
  }

  lemma ZeroAndOneAreEntries()
    ensures Entry(CodebookHalf.Narrow(0)) == 0.0 && Entry(CodebookHalf.Narrow(0x3F80_0000)) == 1.0
  {
    CodebookHalf.ZeroAndOneAreKept();
    ZeroEntry(0);
    OneEntry(0x3F80_0000);
  }

  lemma ZeroEntry(x: Half.F32)
    requires x == 0 && CodebookHalf.Kept(x) == x
    ensures Entry(CodebookHalf.Narrow(x)) == 0.0
  {
    hide CodebookHalf.Narrow, CodebookHalf.Widen, Half.Unit;
  }

  lemma OneEntry(x: Half.F32)
    requires x == 0x3F80_0000 && CodebookHalf.Kept(x) == x
    ensures Entry(CodebookHalf.Narrow(x)) == 1.0
  {
    hide CodebookHalf.Narrow, CodebookHalf.Widen, Half.Val32, Half.Unit;
    OneUnit(x, 0x80_0000, 126);
  }

  lemma OneUnit(x: Half.F32, a: nat, k: nat)
    requires x == 0x3F80_0000 && a == 0x80_0000 && k == 126
    ensures Half.Val32(x) as real == Half.Unit()
  {
    assert Half.Exp32(x) == 127 && Half.Mant32(x) == 0 && !Half.Negative32(x);
    CodebookHalf.TwentyThree(a);
    hide Half.Exp32, Half.Mant32, Half.Negative32, Shifts.Shl;
    Shifts.ShlShl(1, 23, k);
  }

  lemma ConstantBook(codec: Codec, block: seq<real>, v: real, rounds: nat)
    requires Sound(codec) && block != [] && (v == 0.0 || v == 1.0)
    requires Constant(block, v)
    ensures forall j | 0 <= j < SIZE :: Book(codec, block, rounds)[j] == v
  {
    hide Trained;
    assert IsShuffle(Shuffle(codec, |block|), |block|);
    ConstantBlock(block, v, Shuffle(codec, |block|), rounds, codec.bits);
    assert codec.bits(v) == BitsOf(codec, v);
    ZeroAndOneAreEntries();
  }

  /** Only the last codebook is kept: all weights of every tensor of length n decode with the
      codebook their index was chosen from, whatever the shuffles, exactly if n is at most
      one block. */
  lemma DecodesAsMeantIff(n: nat, rounds: nat)
    ensures (forall codec, src: seq<real> | Sound(codec) && |src| == n :: DecodesAsMeant(codec, src, rounds))
       <==> n <= BLOCK4
  {
    if n <= BLOCK4 {
      forall codec, src: seq<real> | Sound(codec) && |src| == n
        ensures DecodesAsMeant(codec, src, rounds)
      {
        OneBlockDecodes(codec, src, rounds);
      }
    } else {
      var codec := PlainCodec();
      MoreBlocksFail(codec, n, rounds);
      assert !DecodesAsMeant(codec, OnesThenZeros(n), rounds);
    }
  }
}
