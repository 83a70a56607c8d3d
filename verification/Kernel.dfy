/** The training kernels of `inferno/inferno_training_sim.cpp`, over the reals: eight lanes and
    a tail compute the plain sums, the backward kernel is the adjoint of the forward one, and
    the update descends along the gradient. */
module Kernel {
  import opened Reals

  // ----- Vectors

  function Dot(x: seq<real>, y: seq<real>): real
    requires |x| == |y|
  {
    if x == [] then 0.0
    else Dot(x[..|x| - 1], y[..|y| - 1]) + Times(x[|x| - 1], y[|y| - 1])
  }

  function Plus(x: seq<real>, y: seq<real>): seq<real>
    requires |x| == |y|
  {
    seq(|x|, i requires 0 <= i < |x| => x[i] + y[i])
  }

  function Minus(x: seq<real>, y: seq<real>): seq<real>
    requires |x| == |y|
  {
    seq(|x|, i requires 0 <= i < |x| => x[i] - y[i])
  }

  function Scaled(k: real, x: seq<real>): (y: seq<real>)
    ensures |y| == |x|
  {
    seq(|x|, i requires 0 <= i < |x| => Times(k, x[i]))
  }

  function Zeros(n: nat): seq<real> { seq(n, i => 0.0) }

  lemma TimesLinear(x: real, y: real, z: real)
    ensures Times(x, y + z) == Times(x, y) + Times(x, z)
    ensures Times(x - y, z) == Times(x, z) - Times(y, z)
    ensures Times(x, 0.0) == 0.0
  {
  }

  lemma TimesScale(x: real, k: real, y: real)
    ensures Times(x, Times(k, y)) == Times(k, Times(x, y))
  {
    assert x * (k * y) == k * (x * y);
  }

  lemma {:induction false} DotPlus(w: seq<real>, x: seq<real>, y: seq<real>)
    requires |w| == |x| == |y|
    ensures Dot(w, Plus(x, y)) == Dot(w, x) + Dot(w, y)
  {
    hide Times;
    if w != [] {
      var n := |w| - 1;
      assert Plus(x, y)[..n] == Plus(x[..n], y[..n]);
      DotPlus(w[..n], x[..n], y[..n]);
      TimesLinear(w[n], x[n], y[n]);
    }
  }

  lemma {:induction false} DotMinus(x: seq<real>, y: seq<real>, w: seq<real>)
    requires |w| == |x| == |y|
    ensures Dot(Minus(x, y), w) == Dot(x, w) - Dot(y, w)
  {
    hide Times;
    if w != [] {
      var n := |w| - 1;
      assert Minus(x, y)[..n] == Minus(x[..n], y[..n]);
      DotMinus(x[..n], y[..n], w[..n]);
      TimesLinear(x[n], y[n], w[n]);
    }
  }

  lemma {:induction false} DotScaled(w: seq<real>, k: real, x: seq<real>)
    requires |w| == |x|
    ensures Dot(w, Scaled(k, x)) == Times(k, Dot(w, x))
  {
    hide Times;
    TimesLinear(k, 0.0, 0.0);
    if w != [] {
      var n := |w| - 1;
      assert Scaled(k, x)[..n] == Scaled(k, x[..n]);
      DotScaled(w[..n], k, x[..n]);
      TimesScale(w[n], k, x[n]);
      TimesLinear(k, Dot(w[..n], x[..n]), Times(w[n], x[n]));
    }
  }

  lemma {:induction false} DotZeros(w: seq<real>)
    ensures Dot(w, Zeros(|w|)) == 0.0
  {
    hide Times;
    if w != [] {
      var n := |w| - 1;
      assert Zeros(|w|)[..n] == Zeros(n);
      DotZeros(w[..n]);
      TimesLinear(w[n], 0.0, 0.0);
    }
  }

  lemma {:induction false} DotAppend(x: seq<real>, x': seq<real>, y: seq<real>, y': seq<real>)
    requires |x| == |y| && |x'| == |y'|
    ensures Dot(x + x', y + y') == Dot(x, y) + Dot(x', y')
  {
    hide Times;
    if x' == [] {
      assert x + x' == x && y + y' == y;
    } else {
      var n := |x'| - 1;
      assert (x + x')[..|x| + n] == x + x'[..n] && (y + y')[..|y| + n] == y + y'[..n];
      DotAppend(x, x'[..n], y, y'[..n]);
    }
  }

  lemma {:induction false} DotSquareNonNegative(x: seq<real>)
    ensures Dot(x, x) >= 0.0
  {
    if x != [] {
      DotSquareNonNegative(x[..|x| - 1]);
    }
  }

  /** The inner product: linear in its second argument, and against a unit vector one entry. */
  lemma DotIsInnerProduct(w: seq<real>, x: seq<real>, y: seq<real>, k: real, i: nat)
    requires |w| == |x| == |y| && i < |w|
    ensures Dot(w, Plus(x, y)) == Dot(w, x) + Dot(w, y) && Dot(w, Scaled(k, x)) == k * Dot(w, x)
    ensures Dot(w, UnitVector(|w|, i)) == w[i]
  {
    DotPlus(w, x, y);
    DotScaled(w, k, x);
    hide Dot;
    DotUnit(w, i);
  }

  function UnitVector(n: nat, i: nat): seq<real> { seq(n, j => if j == i then 1.0 else 0.0) }

  lemma {:induction false} DotUnit(w: seq<real>, i: nat)
    ensures Dot(w, UnitVector(|w|, i)) == if i < |w| then w[i] else 0.0
  {
    if w != [] {
      var n := |w| - 1;
      assert UnitVector(|w|, i)[..n] == UnitVector(n, i);
      DotUnit(w[..n], i);
    }
  }

  // ----- What the kernels compute, row by row

  lemma RowFits(r: nat, rows: nat, cols: nat)
    requires r < rows
    ensures 0 <= r * cols && r * cols + cols == (r + 1) * cols <= rows * cols
  {
    var d: nat := rows - (r + 1);
    assert rows * cols == (r + 1) * cols + d * cols;
  }

  /** Row r of a matrix kept row after row. */
  function Row(w: seq<real>, cols: nat, r: nat): (row: seq<real>)
    requires r * cols + cols <= |w|
    ensures |row| == cols
  {
    w[r * cols..r * cols + cols]
  }

  predicate Matrix(w: seq<real>, rows: nat, cols: nat) { |w| == rows * cols }

  /** The product of the matrix with a vector. */
  function Apply(w: seq<real>, a: seq<real>, rows: nat): (o: seq<real>)
    requires Matrix(w, rows, |a|)
    ensures |o| == rows
  {
    if rows == 0 then []
    else
      RowFits(rows - 1, rows, |a|);
      Apply(w[..(rows - 1) * |a|], a, rows - 1) + [Dot(Row(w, |a|, rows - 1), a)]
  }

  /** The outer product, row after row. */
  function Outer(g: seq<real>, a: seq<real>): (o: seq<real>)
    ensures |o| == |g| * |a|
  {
    if g == [] then []
    else
      RowFits(|g| - 1, |g|, |a|);
      Outer(g[..|g| - 1], a) + Scaled(g[|g| - 1], a)
  }

  lemma {:induction false} ApplyAt(w: seq<real>, a: seq<real>, rows: nat, r: nat)
    requires Matrix(w, rows, |a|) && r < rows
    ensures r * |a| + |a| <= |w| && Apply(w, a, rows)[r] == Dot(Row(w, |a|, r), a)
  {
    hide Dot;
    RowFits(r, rows, |a|);
    RowFits(rows - 1, rows, |a|);
    if r < rows - 1 {
      RowFits(r, rows - 1, |a|);
      var top := w[..(rows - 1) * |a|];
      ApplyAt(top, a, rows - 1, r);
      SliceOfPrefix(w, (rows - 1) * |a|, r * |a|, r * |a| + |a|);
    }
  }

  lemma SliceOfPrefix(w: seq<real>, n: nat, lo: nat, hi: nat)
    requires lo <= hi <= n <= |w|
    ensures w[..n][lo..hi] == w[lo..hi]
  {
  }

  lemma {:induction false} OuterAt(g: seq<real>, a: seq<real>, r: nat, j: nat)
    requires r < |g| && j < |a|
    ensures r * |a| + j < |g| * |a| && Outer(g, a)[r * |a| + j] == Times(g[r], a[j])
  {
    hide Times;
    RowFits(r, |g|, |a|);
    RowFits(|g| - 1, |g|, |a|);
    if r < |g| - 1 {
      OuterAt(g[..|g| - 1], a, r, j);
    }
  }

  // ----- Forward

  /** `cols & ~7`. */
  function Eights(n: nat): (m: nat)
    ensures m <= n < m + 8 && m % 8 == 0
  {
    n - n % 8
  }

  function Lanes(v: seq<real>): real
    requires |v| == 8
  {
    v[0] + v[1] + v[2] + v[3] + v[4] + v[5] + v[6] + v[7]
  }

  /** One fused multiply-add of eight lanes. */
  method MultiplyAdd(row: seq<real>, a: seq<real>, j: nat, vsum: array<real>)
    requires |row| == |a| && j + 8 <= |a| && vsum.Length == 8
    modifies vsum
    ensures forall l | 0 <= l < 8 :: vsum[l] == old(vsum[l]) + Times(row[j + l], a[j + l])
  {
    for l := 0 to 8
      invariant forall k | 0 <= k < l :: vsum[k] == old(vsum[k]) + Times(row[j + k], a[j + k])
      invariant forall k | l <= k < 8 :: vsum[k] == old(vsum[k])
    {
      vsum[l] := vsum[l] + row[j + l] * a[j + l];
    }
  }

  lemma DotStep(x: seq<real>, y: seq<real>, j: nat)
    requires |x| == |y| && j < |x|
    ensures Dot(x[..j + 1], y[..j + 1]) == Dot(x[..j], y[..j]) + Times(x[j], y[j])
  {
    assert x[..j + 1][..j] == x[..j] && y[..j + 1][..j] == y[..j];
  }

  lemma LanesStep(x: seq<real>, y: seq<real>, j: nat, v: seq<real>, v': seq<real>)
    requires |x| == |y| && j + 8 <= |x| && |v| == |v'| == 8
    requires forall l | 0 <= l < 8 :: v'[l] == v[l] + Times(x[j + l], y[j + l])
    requires Lanes(v) == Dot(x[..j], y[..j])
    ensures Lanes(v') == Dot(x[..j + 8], y[..j + 8])
  {
    hide Times, Dot;
    DotStep(x, y, j); DotStep(x, y, j + 1); DotStep(x, y, j + 2); DotStep(x, y, j + 3);
    DotStep(x, y, j + 4); DotStep(x, y, j + 5); DotStep(x, y, j + 6); DotStep(x, y, j + 7);
  }

  /** One row with eight lanes and a tail. */
  method LaneDot(row: seq<real>, a: seq<real>) returns (sum: real)
    requires |row| == |a|
    ensures sum == Dot(row, a)
  {
    var vsum := new real[8](_ => 0.0);
    var j := 0;
    var cols8 := Eights(|a|);
    assert Lanes(vsum[..]) == Dot(row[..0], a[..0]);
    while j < cols8
      invariant 0 <= j <= cols8 && j % 8 == 0
      invariant Lanes(vsum[..]) == Dot(row[..j], a[..j])
    {
      ghost var v := vsum[..];
      MultiplyAdd(row, a, j, vsum);
      LanesStep(row, a, j, v, vsum[..]);
      j := j + 8;
    }
    sum := vsum[0] + vsum[1] + vsum[2] + vsum[3] + vsum[4] + vsum[5] + vsum[6] + vsum[7];
    while j < |a|
      invariant j <= |a| && sum == Dot(row[..j], a[..j])
    {
      DotStep(row, a, j);
      sum := sum + row[j] * a[j];
      j := j + 1;
    }
    assert row[..|a|] == row && a[..|a|] == a;
  }

  /** One row by the scalar loop. */
  method ScalarDot(row: seq<real>, a: seq<real>) returns (sum: real)
    requires |row| == |a|
    ensures sum == Dot(row, a)
  {
    sum := 0.0;
    for j := 0 to |a|
      invariant sum == Dot(row[..j], a[..j])
    {
      DotStep(row, a, j);
      sum := sum + row[j] * a[j];
    }
    assert row[..|a|] == row && a[..|a|] == a;
  }

  /** `gemv_forward`, with or without vector instructions. */
  method GemvForward(avx: bool, w: seq<real>, a: seq<real>, output: array<real>, rows: nat)
    requires Matrix(w, rows, |a|) && output.Length == rows
    modifies output
    ensures output[..] == Apply(w, a, rows)
  {
    hide Dot, Apply;
    for r := 0 to rows
      invariant forall k | 0 <= k < r :: output[k] == Apply(w, a, rows)[k]
    {
      ApplyAt(w, a, rows, r);
      var sum;
      if avx {
        sum := LaneDot(Row(w, |a|, r), a);
      } else {
        sum := ScalarDot(Row(w, |a|, r), a);
      }
      output[r] := sum;
    }
  }

  // ----- Backward and update: both add a multiple of a vector to a stretch of an array

  /** buf after the first j entries of k * x were added to it, from position base on. */
  function Added(buf: seq<real>, base: nat, k: real, x: seq<real>, j: nat): (b: seq<real>)
    requires base + |x| <= |buf| && j <= |x|
    ensures |b| == |buf|
  {
    seq(|buf|, i requires 0 <= i < |buf| =>
      if base <= i < base + j then buf[i] + Times(k, x[i - base]) else buf[i])
  }

  lemma AddedWhole(buf: seq<real>, base: nat, k: real, x: seq<real>)
    requires base + |x| <= |buf|
    ensures Added(buf, base, k, x, |x|)
         == buf[..base] + Plus(buf[base..base + |x|], Scaled(k, x)) + buf[base + |x|..]
  {
    hide Times;
  }

  method AddOne(buf: array<real>, base: nat, k: real, x: seq<real>, j: nat, ghost was: seq<real>)
    requires base + |x| <= buf.Length == |was| && j < |x|
    requires buf[..] == Added(was, base, k, x, j)
    modifies buf
    ensures buf[..] == Added(was, base, k, x, j + 1)
  {
    var p := k * x[j];
    assert p == Times(k, x[j]);
    hide Times;
    buf[base + j] := buf[base + j] + p;
  }

  /** buf[base..base + |x|] += k * x, eight at a time and then one at a time. */
  method AddScaled(avx: bool, buf: array<real>, base: nat, k: real, x: seq<real>)
    requires base + |x| <= buf.Length
    modifies buf
    ensures buf[..] == old(buf[..base]) + Plus(old(buf[base..base + |x|]), Scaled(k, x)) + old(buf[base + |x|..])
  {
    ghost var was := buf[..];
    AddedWhole(was, base, k, x);
    assert Added(was, base, k, x, 0) == was;
    hide Added;
    var j := 0;
    if avx {
      var n8 := Eights(|x|);
      while j < n8
        invariant 0 <= j <= n8 && j % 8 == 0
        invariant buf[..] == Added(was, base, k, x, j)
      {
        for l := 0 to 8
          invariant buf[..] == Added(was, base, k, x, j + l)
        {
          AddOne(buf, base, k, x, j + l, was);
        }
        j := j + 8;
      }
    }
    while j < |x|
      invariant j <= |x| && buf[..] == Added(was, base, k, x, j)
    {
      AddOne(buf, base, k, x, j, was);
      j := j + 1;
    }
  }

  lemma PlusAppend(x: seq<real>, x': seq<real>, y: seq<real>, y': seq<real>)
    requires |x| == |y| && |x'| == |y'|
    ensures Plus(x + x', y + y') == Plus(x, y) + Plus(x', y')
  {
  }

  lemma OuterLast(g: seq<real>, a: seq<real>, r: nat)
    requires r < |g|
    ensures Outer(g[..r + 1], a) == Outer(g[..r], a) + Scaled(g[r], a)
  {
    assert g[..r + 1][..r] == g[..r];
  }

  lemma RowAdded(was: seq<real>, rows: seq<real>, row: seq<real>, hi: nat, now: seq<real>)
    requires |rows| + |row| == hi <= |was|
    requires now == Plus(was[..|rows|], rows) + Plus(was[|rows|..hi], row) + was[hi..]
    ensures now[..hi] == Plus(was[..hi], rows + row) && now[hi..] == was[hi..]
  {
    PlusAppend(was[..|rows|], was[|rows|..hi], rows, row);
    assert was[..hi] == was[..|rows|] + was[|rows|..hi];
  }

  /** `gemv_backward`, with or without vector instructions. */
  method GemvBackward(avx: bool, grad: array<real>, g: seq<real>, a: seq<real>)
    requires grad.Length == |g| * |a|
    modifies grad
    ensures grad[..] == Plus(old(grad[..]), Outer(g, a))
  {
    hide Outer;
    ghost var was := grad[..];
    assert Outer(g[..0], a) == [];
    for r := 0 to |g|
      invariant r * |a| <= |was|
      invariant grad[..r * |a|] == Plus(was[..r * |a|], Outer(g[..r], a))
      invariant grad[r * |a|..] == was[r * |a|..]
    {
      var base := r * |a|;
      RowFits(r, |g|, |a|);
      assert grad[base..base + |a|] == was[base..base + |a|];
      assert grad[base + |a|..] == was[base + |a|..];
      AddScaled(avx, grad, base, g[r], a);
      OuterLast(g, a, r);
      RowAdded(was, Outer(g[..r], a), Scaled(g[r], a), base + |a|, grad[..]);
    }
    assert g[..|g|] == g && was[..|g| * |a|] == was;
  }

  /** `weight_update`: subtracting lr * x is adding -lr * x. */
  method WeightUpdate(avx: bool, weights: array<real>, grad: seq<real>, lr: real)
    requires weights.Length == |grad|
    modifies weights
    ensures weights[..] == Minus(old(weights[..]), Scaled(lr, grad))
  {
    AddScaled(avx, weights, 0, -lr, grad);
    SubtractScaled(old(weights[..]), lr, grad);
  }

  lemma SubtractScaled(w: seq<real>, lr: real, x: seq<real>)
    requires |w| == |x|
    ensures Plus(w, Scaled(-lr, x)) == Minus(w, Scaled(lr, x))
  {
    forall i | 0 <= i < |x|
      ensures Times(-lr, x[i]) == -Times(lr, x[i])
    {
    }
    hide Times;
  }

  // ----- Adjointness and descent

  /** One sample: the gradient of its output and its input activations. */
  datatype Sample = Sample(g: seq<real>, a: seq<real>)

  predicate Shaped(batch: seq<Sample>, rows: nat, cols: nat) {
    forall b | 0 <= b < |batch| :: |batch[b].g| == rows && |batch[b].a| == cols
  }

  /** The loss linearised at the outputs: sum of <g, W a> over the batch. */
  function Loss(w: seq<real>, batch: seq<Sample>, rows: nat, cols: nat): real
    requires Matrix(w, rows, cols) && Shaped(batch, rows, cols)
  {
    if batch == [] then 0.0
    else
      var s := batch[|batch| - 1];
      Loss(w, batch[..|batch| - 1], rows, cols) + Dot(s.g, Apply(w, s.a, rows))
  }

  /** Gradients zeroed and then accumulated by the backward kernel over the batch. */
  function Gradient(batch: seq<Sample>, rows: nat, cols: nat): (gr: seq<real>)
    requires Shaped(batch, rows, cols)
    ensures Matrix(gr, rows, cols)
  {
    if batch == [] then Zeros(rows * cols)
    else
      var s := batch[|batch| - 1];
      Plus(Gradient(batch[..|batch| - 1], rows, cols), Outer(s.g, s.a))
  }

  /** Entry r of the output gradients and entry j of the inputs, sample by sample. */
  function GradsAt(batch: seq<Sample>, r: nat): seq<real>
    requires forall b | 0 <= b < |batch| :: r < |batch[b].g|
  {
    seq(|batch|, b requires 0 <= b < |batch| => batch[b].g[r])
  }

  function InputsAt(batch: seq<Sample>, j: nat): seq<real>
    requires forall b | 0 <= b < |batch| :: j < |batch[b].a|
  {
    seq(|batch|, b requires 0 <= b < |batch| => batch[b].a[j])
  }

  /** The gradient of a weight sums, over the samples, output gradient times input. */
  lemma {:induction false} GradientAt(batch: seq<Sample>, rows: nat, cols: nat, r: nat, j: nat)
    requires Shaped(batch, rows, cols) && r < rows && j < cols
    ensures r * cols + j < rows * cols
    ensures Gradient(batch, rows, cols)[r * cols + j] == Dot(GradsAt(batch, r), InputsAt(batch, j))
  {
    hide Times;
    RowFits(r, rows, cols);
    if batch != [] {
      var n := |batch| - 1;
      GradientAt(batch[..n], rows, cols, r, j);
      OuterAt(batch[n].g, batch[n].a, r, j);
      hide Outer;
      assert GradsAt(batch, r)[..n] == GradsAt(batch[..n], r);
      assert InputsAt(batch, j)[..n] == InputsAt(batch[..n], j);
    }
  }

  lemma {:induction false} BackwardIsAdjoint(w: seq<real>, g: seq<real>, a: seq<real>)
    requires Matrix(w, |g|, |a|)
    ensures Dot(g, Apply(w, a, |g|)) == Dot(w, Outer(g, a))
  {
    hide Times, Scaled;
    var n := |g| - 1;
    if g == [] {
      assert w == [];
    } else {
      RowFits(n, |g|, |a|);
      var top, last := w[..n * |a|], Row(w, |a|, n);
      assert w == top + last;
      BackwardIsAdjoint(top, g[..n], a);
      DotAppend(top, last, Outer(g[..n], a), Scaled(g[n], a));
      DotScaled(last, g[n], a);
      assert Apply(w, a, |g|)[..n] == Apply(top, a, n);
    }
  }

  /** The linearised loss is the inner product with the accumulated gradient, for every
      weight matrix and every batch. */
  lemma {:induction false} LossIsInnerProduct(w: seq<real>, batch: seq<Sample>, rows: nat, cols: nat)
    requires Matrix(w, rows, cols) && Shaped(batch, rows, cols)
    ensures Loss(w, batch, rows, cols) == Dot(w, Gradient(batch, rows, cols))
  {
    hide Dot, Apply, Outer;
    if batch == [] {
      DotZeros(w);
    } else {
      var s := batch[|batch| - 1];
      var before := batch[..|batch| - 1];
      LossIsInnerProduct(w, before, rows, cols);
      BackwardIsAdjoint(w, s.g, s.a);
      DotPlus(w, Gradient(before, rows, cols), Outer(s.g, s.a));
    }
  }

  /** Any change of the weights changes the linearised loss by its inner product with the
      accumulated gradient. */
  lemma LossChange(w: seq<real>, w': seq<real>, batch: seq<Sample>, rows: nat, cols: nat)
    requires Matrix(w, rows, cols) && Matrix(w', rows, cols) && Shaped(batch, rows, cols)
    ensures Loss(w', batch, rows, cols) - Loss(w, batch, rows, cols)
         == Dot(Minus(w', w), Gradient(batch, rows, cols))
  {
    LossIsInnerProduct(w, batch, rows, cols);
    LossIsInnerProduct(w', batch, rows, cols);
    DotMinus(w', w, Gradient(batch, rows, cols));
  }

  lemma {:induction false} DotSymmetric(x: seq<real>, y: seq<real>)
    requires |x| == |y|
    ensures Dot(x, y) == Dot(y, x)
  {
    if x != [] {
      DotSymmetric(x[..|x| - 1], y[..|y| - 1]);
    }
  }

  /** One update lowers the linearised loss by exactly lr times the squared gradient. */
  lemma UpdateDescends(w: seq<real>, lr: real, batch: seq<Sample>, rows: nat, cols: nat)
    requires Matrix(w, rows, cols) && Shaped(batch, rows, cols)
    ensures var gr := Gradient(batch, rows, cols);
            Loss(Minus(w, Scaled(lr, gr)), batch, rows, cols)
            == Loss(w, batch, rows, cols) - Times(lr, Dot(gr, gr))
  {
    var gr := Gradient(batch, rows, cols);
    hide Dot, Loss, Gradient, Times;
    LossIsInnerProduct(w, batch, rows, cols);
    LossIsInnerProduct(Minus(w, Scaled(lr, gr)), batch, rows, cols);
    DotMinus(w, Scaled(lr, gr), gr);
    DotSymmetric(Scaled(lr, gr), gr);
    DotScaled(gr, lr, gr);
  }

  /** So at no non-negative rate does it rise. */
  lemma UpdateNeverRaises(w: seq<real>, lr: real, batch: seq<Sample>, rows: nat, cols: nat)
    requires Matrix(w, rows, cols) && Shaped(batch, rows, cols) && lr >= 0.0
    ensures Loss(Minus(w, Scaled(lr, Gradient(batch, rows, cols))), batch, rows, cols) <= Loss(w, batch, rows, cols)
  {
    hide Dot, Loss, Gradient, Times;
    var gr := Gradient(batch, rows, cols);
    UpdateDescends(w, lr, batch, rows, cols);
    DotSquareNonNegative(gr);
    MulNonNegative(lr, Dot(gr, gr));
  }

  // ----- The measured step

  method Backward(avx: bool, grad: array<real>, batch: seq<Sample>, rows: nat, cols: nat)
    requires grad.Length == rows * cols && Shaped(batch, rows, cols)
    modifies grad
    ensures grad[..] == Gradient(batch, rows, cols)
  {
    hide Outer, Plus;
    for i := 0 to grad.Length
      invariant forall k | 0 <= k < i :: grad[k] == 0.0
    {
      grad[i] := 0.0;
    }
    assert grad[..] == Zeros(rows * cols);
    for b := 0 to |batch|
      invariant grad[..] == Gradient(batch[..b], rows, cols)
    {
      assert batch[..b + 1][..b] == batch[..b];
      GemvBackward(avx, grad, batch[b].g, batch[b].a);
    }
    assert batch[..|batch|] == batch;
  }

  /** The backward and update phases of `simulate_step`, each repeated `iters` times: since
      the gradients are zeroed before each pass, repeating it changes nothing, while every
      repeated update descends again. */
  method SimulateStep(avx: bool, weights: array<real>, batch: seq<Sample>, rows: nat, cols: nat, lr: real, iters: nat)
    requires weights.Length == rows * cols && Shaped(batch, rows, cols)
    modifies weights
    ensures var gr := Gradient(batch, rows, cols);
            Loss(weights[..], batch, rows, cols)
            == Loss(old(weights[..]), batch, rows, cols) - Times(iters as real, Times(lr, Dot(gr, gr)))
  {
    hide Loss, Dot, Gradient;
    ghost var gr := Gradient(batch, rows, cols);
    ghost var before := Loss(weights[..], batch, rows, cols);
    var grad := new real[rows * cols](_ => 0.0);
    for it := 0 to iters
      invariant it > 0 ==> grad[..] == gr
      invariant weights[..] == old(weights[..])
    {
      Backward(avx, grad, batch, rows, cols);
    }
    for it := 0 to iters
      invariant iters > 0 ==> grad[..] == gr
      invariant Loss(weights[..], batch, rows, cols) == before - Times(it as real, Times(lr, Dot(gr, gr)))
    {
      UpdateDescends(weights[..], lr, batch, rows, cols);
      WeightUpdate(avx, weights, grad[..], lr);
      OneMore(it as real, Times(lr, Dot(gr, gr)));
    }
  }

  lemma OneMore(k: real, x: real)
    ensures Times(k + 1.0, x) == Times(k, x) + x
  {
  }
}
