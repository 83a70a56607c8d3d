/** `test_quant4_cw`: every column is mapped to [0, 1] by its own minimum and range,
    one pinned codebook is trained on all of it, and each value is replaced by its
    nearest codeword mapped back. */
module ColumnWise {
  import opened Lloyd
  import opened LloydTraining
  import opened Reals
  import opened PinnedCodebook

  /** Position of row r, column c in row-major order. */
  function Flat(r: nat, c: nat, cols: nat): nat { r * cols + c }

  function RowOf(i: nat, cols: nat): nat
    requires cols > 0
  {
    i / cols
  }

  function ColOf(i: nat, cols: nat): (c: nat)
    requires cols > 0
    ensures c < cols
  {
    i % cols
  }

  lemma FlatFields(r: nat, c: nat, rows: nat, cols: nat)
    requires r < rows && c < cols
    ensures Flat(r, c, cols) < rows * cols
    ensures RowOf(Flat(r, c, cols), cols) == r && ColOf(Flat(r, c, cols), cols) == c
  {
    Grows(r + 1, rows, cols);
    assert (r + 1) * cols == r * cols + cols;
    var i := Flat(r, c, cols);
    var q, m := i / cols, i % cols;
    assert cols * (q - r) == c - m;
    if q > r { Grows(1, q - r, cols); } else if q < r { Grows(1, r - q, cols); }
  }

  lemma Grows(a: nat, b: nat, m: nat)
    requires a <= b
    ensures a * m <= b * m && m * a <= m * b
  {
  }

  lemma RowOfFlat(i: nat, rows: nat, cols: nat)
    requires cols > 0 && i < rows * cols
    ensures RowOf(i, cols) < rows && i == Flat(RowOf(i, cols), ColOf(i, cols), cols)
  {
    if i / cols >= rows { Grows(rows, i / cols, cols); }
  }

  /** Column c of the matrix. */
  function Column(d: seq<real>, rows: nat, cols: nat, c: nat): (col: seq<real>)
    requires |d| == rows * cols && c < cols
    ensures |col| == rows
  {
    seq(rows, r requires 0 <= r < rows => FlatFields(r, c, rows, cols); d[Flat(r, c, cols)])
  }

  function Lo(d: seq<real>, rows: nat, cols: nat, c: nat): real
    requires |d| == rows * cols && c < cols && rows > 0
  {
    Least(Column(d, rows, cols, c))
  }

  function Hi(d: seq<real>, rows: nat, cols: nat, c: nat): real
    requires |d| == rows * cols && c < cols && rows > 0
  {
    Greatest(Column(d, rows, cols, c))
  }

  /** A range below this is replaced by 1. */
  const NEGLIGIBLE: real := 0.0000000001

  function SafeRange(lo: real, hi: real): real {
    if hi - lo < NEGLIGIBLE then 1.0 else hi - lo
  }

  /** The range the code divides by. */
  function Range(d: seq<real>, rows: nat, cols: nat, c: nat): real
    requires |d| == rows * cols && c < cols && rows > 0
  {
    SafeRange(Lo(d, rows, cols, c), Hi(d, rows, cols, c))
  }

  function Unit(x: real, lo: real, rng: real): real
    requires rng != 0.0
  {
    (x - lo) / rng
  }

  lemma InColumn(d: seq<real>, rows: nat, cols: nat, i: nat)
    requires cols > 0 && |d| == rows * cols && i < |d|
    ensures rows > 0 && Lo(d, rows, cols, ColOf(i, cols)) <= d[i] <= Hi(d, rows, cols, ColOf(i, cols))
    ensures Range(d, rows, cols, ColOf(i, cols)) > 0.0
  {
    RowOfFlat(i, rows, cols);
    var col := Column(d, rows, cols, ColOf(i, cols));
    assert col[RowOf(i, cols)] == d[i];
  }

  /** Every value mapped into the unit interval of its column. */
  function Normalized(d: seq<real>, rows: nat, cols: nat): (u: seq<real>)
    requires cols > 0 && |d| == rows * cols && rows > 0
    ensures |u| == |d|
  {
    seq(|d|, i requires 0 <= i < |d| =>
      Unit(d[i], Lo(d, rows, cols, ColOf(i, cols)), Range(d, rows, cols, ColOf(i, cols))))
  }

  /** A value quantized with codebook cb and mapped back. */
  function Restored(x: real, lo: real, rng: real, cb: seq<real>): real
    requires cb != [] && rng != 0.0
  {
    lo + Times(cb[Near(Unit(x, lo, rng), cb)], rng)
  }

  /** What entry i comes back as. */
  function RestoredAt(d: seq<real>, rows: nat, cols: nat, cb: seq<real>, i: nat): real
    requires cols > 0 && rows > 0 && |d| == rows * cols && i < |d| && cb != []
  {
    var c := ColOf(i, cols);
    RangePositive(d, rows, cols, c);
    Restored(d[i], Lo(d, rows, cols, c), Range(d, rows, cols, c), cb)
  }

  /** The shape used: one row when the length is not a whole number of rows. */
  function Shape(n: nat, cols: nat): (nat, nat)
    requires cols > 0
  {
    if n / cols * cols == n then (n / cols, cols) else (1, n)
  }

  lemma ShapeFits(n: nat, cols: nat)
    requires cols > 0 && n > 0
    ensures var (r, c) := Shape(n, cols); r * c == n && c > 0 && r > 0
  {
  }

  /** The columns asked for are used exactly if they divide the length. */
  lemma ShapeIs(n: nat, cols: nat, rows: nat)
    requires cols > 0
    ensures n == rows * cols ==> Shape(n, cols) == (rows, cols)
    ensures Shape(n, cols) != (1, n) ==> Shape(n, cols).1 == cols && n == Shape(n, cols).0 * cols
    ensures (forall r: nat :: n != r * cols) ==> Shape(n, cols) == (1, n)
  {
    if n == rows * cols {
      FlatFields(rows, 0, rows + 1, cols);
    }
  }

  method ColumnRange(d: seq<real>, rows: nat, cols: nat, c: nat) returns (lo: real, rng: real)
    requires |d| == rows * cols && c < cols && rows > 0
    ensures lo == Lo(d, rows, cols, c) && rng == Range(d, rows, cols, c)
  {
    ghost var col := Column(d, rows, cols, c);
    FlatFields(0, c, rows, cols);
    lo := d[c];
    var hi := d[c];
    assert Least(col[..1]) == Greatest(col[..1]) == lo;
    hide Least, Greatest;
    for r := 1 to rows
      invariant lo == Least(col[..r]) && hi == Greatest(col[..r])
    {
      FlatFields(r, c, rows, cols);
      ExtremesStep(col, r);
      var v := d[Flat(r, c, cols)];
      if v < lo { lo := v; }
      if v > hi { hi := v; }
    }
    assert col[..rows] == col;
    rng := hi - lo;
    if rng < NEGLIGIBLE { rng := 1.0; }
  }

  /** `k` is 16 in the program; `rounds` is 50. */
  method Quantize(d: seq<real>, columns: nat, k: nat, rounds: nat) returns (deq: array<real>)
    requires d != [] && columns > 0 && k >= 2
    ensures deq.Length == |d|
    ensures var (rows, cols) := Shape(|d|, columns);
            && cols > 0 && rows > 0 && rows * cols == |d|
            && var cb := PinnedBook(Normalized(d, rows, cols), k, rounds);
               forall i | 0 <= i < |d| :: deq[i] == RestoredAt(d, rows, cols, cb, i)
  {
    ShapeFits(|d|, columns);
    var (rows, cols) := Shape(|d|, columns);
    var normalized, colMin, colRange := Normalize(d, rows, cols);
    var cb := new real[k];
    LmTrainPinned(normalized[..], cb, rounds);
    deq := Restore(d, rows, cols, colMin, colRange, cb);
  }

  ghost predicate ColumnsRead(d: seq<real>, rows: nat, cols: nat, colMin: seq<real>, colRange: seq<real>)
    requires |d| == rows * cols && rows > 0
  {
    && |colMin| == |colRange| == cols
    && forall c | 0 <= c < cols ::
         colMin[c] == Lo(d, rows, cols, c) && colRange[c] == Range(d, rows, cols, c)
  }

  lemma RangePositive(d: seq<real>, rows: nat, cols: nat, c: nat)
    requires |d| == rows * cols && c < cols && rows > 0
    ensures Range(d, rows, cols, c) > 0.0
  {
    FlatFields(0, c, rows, cols);
    InColumn(d, rows, cols, c);
  }

  method Normalize(d: seq<real>, rows: nat, cols: nat)
    returns (normalized: array<real>, colMin: array<real>, colRange: array<real>)
    requires rows * cols == |d| && cols > 0 && rows > 0
    ensures fresh(normalized) && fresh(colMin) && fresh(colRange)
    ensures normalized[..] == Normalized(d, rows, cols)
    ensures ColumnsRead(d, rows, cols, colMin[..], colRange[..])
  {
    hide Range, Lo, Unit, Flat, RowOf, ColOf;
    normalized := new real[|d|];
    colMin := new real[cols];
    colRange := new real[cols];
    for c := 0 to cols
      invariant fresh(normalized) && fresh(colMin) && fresh(colRange)
      invariant colMin != colRange && colMin != normalized && colRange != normalized
      invariant forall b | 0 <= b < c ::
                  colMin[b] == Lo(d, rows, cols, b) && colRange[b] == Range(d, rows, cols, b)
      invariant forall i | 0 <= i < |d| && ColOf(i, cols) < c :: normalized[i] == Normalized(d, rows, cols)[i]
    {
      var lo, rng := ColumnRange(d, rows, cols, c);
      RangePositive(d, rows, cols, c);
      colMin[c] := lo;
      colRange[c] := rng;
      for r := 0 to rows
        invariant forall b | 0 <= b <= c ::
                    colMin[b] == Lo(d, rows, cols, b) && colRange[b] == Range(d, rows, cols, b)
        invariant forall i | 0 <= i < |d| && (ColOf(i, cols) < c || (ColOf(i, cols) == c && RowOf(i, cols) < r)) ::
                    normalized[i] == Normalized(d, rows, cols)[i]
      {
        FlatFields(r, c, rows, cols);
        var f := Flat(r, c, cols);
        normalized[f] := Unit(d[f], lo, rng);
        forall i | 0 <= i < |d| && ColOf(i, cols) == c && RowOf(i, cols) == r
          ensures i == f
        {
          RowOfFlat(i, rows, cols);
        }
      }
      forall i | 0 <= i < |d|
        ensures RowOf(i, cols) < rows
      {
        RowOfFlat(i, rows, cols);
      }
    }
  }

  method Restore(d: seq<real>, rows: nat, cols: nat, colMin: array<real>, colRange: array<real>, cb: array<real>)
    returns (deq: array<real>)
    requires rows * cols == |d| && cols > 0 && rows > 0 && cb.Length > 0
    requires ColumnsRead(d, rows, cols, colMin[..], colRange[..])
    ensures fresh(deq) && deq.Length == |d|
    ensures forall i | 0 <= i < |d| :: deq[i] == RestoredAt(d, rows, cols, cb[..], i)
  {
    hide Range, Lo, Restored, Flat, RowOf, ColOf;
    deq := new real[|d|];
    for c := 0 to cols
      invariant forall i | 0 <= i < |d| && ColOf(i, cols) < c :: deq[i] == RestoredAt(d, rows, cols, cb[..], i)
    {
      RangePositive(d, rows, cols, c);
      assert colMin[..][c] == colMin[c] && colRange[..][c] == colRange[c];
      var lo, rng := colMin[c], colRange[c];
      for r := 0 to rows
        invariant forall i | 0 <= i < |d| && (ColOf(i, cols) < c || (ColOf(i, cols) == c && RowOf(i, cols) < r)) ::
                    deq[i] == RestoredAt(d, rows, cols, cb[..], i)
      {
        FlatFields(r, c, rows, cols);
        var f := Flat(r, c, cols);
        var idx := FindNear(Unit(d[f], lo, rng), cb);
        deq[f] := lo + cb[idx] * rng;
        RestoredIs(d[f], lo, rng, cb[..]);
        forall i | 0 <= i < |d| && ColOf(i, cols) == c && RowOf(i, cols) == r
          ensures i == f
        {
          RowOfFlat(i, rows, cols);
        }
      }
      forall i | 0 <= i < |d|
        ensures RowOf(i, cols) < rows
      {
        RowOfFlat(i, rows, cols);
      }
    }
  }

  lemma RestoredIs(x: real, lo: real, rng: real, cb: seq<real>)
    requires cb != [] && rng != 0.0
    ensures Restored(x, lo, rng, cb) == lo + cb[Near(Unit(x, lo, rng), cb)] * rng
  {
    hide Near, Unit;
  }

  // ----- What it guarantees of the values

  lemma UnitInterval(x: real, lo: real, hi: real)
    requires lo <= x <= hi
    ensures SafeRange(lo, hi) > 0.0
    ensures 0.0 <= Unit(x, lo, SafeRange(lo, hi)) <= 1.0
    ensures x == lo ==> Unit(x, lo, SafeRange(lo, hi)) == 0.0
    ensures x == hi && hi - lo >= NEGLIGIBLE ==> Unit(x, lo, SafeRange(lo, hi)) == 1.0
    ensures hi - lo < NEGLIGIBLE ==> Unit(x, lo, SafeRange(lo, hi)) == x - lo
  {
    var rng := SafeRange(lo, hi);
    QuotientBetween(0.0, 1.0, x - lo, rng);
    if x == lo { QuotientBetween(0.0, 0.0, x - lo, rng); }
    if x == hi && hi - lo >= NEGLIGIBLE { QuotientBetween(1.0, 1.0, x - lo, rng); }
  }

  /** The error in the unit interval, scaled back. */
  lemma RestoredError(x: real, lo: real, rng: real, cb: seq<real>, g: real)
    requires cb != [] && rng > 0.0 && 2.0 * Dist(Unit(x, lo, rng), cb[Near(Unit(x, lo, rng), cb)]) <= g
    ensures 2.0 * Dist(x, Restored(x, lo, rng, cb)) <= Times(g, rng)
  {
    hide Near;
    var u := Unit(x, lo, rng);
    var q := cb[Near(u, cb)];
    assert u * rng == x - lo;
    assert x - Restored(x, lo, rng, cb) == (u - q) * rng;
    ScaledDist(u - q, rng, g);
  }

  lemma ScaledDist(e: real, rng: real, g: real)
    requires rng > 0.0 && -g <= 2.0 * e <= g
    ensures -(g * rng) <= 2.0 * (e * rng) <= g * rng
  {
    assert (g - 2.0 * e) * rng >= 0.0;
    assert (g + 2.0 * e) * rng >= 0.0;
  }

  /** A value comes back exactly if it is a codeword in its column's unit interval. */
  lemma ExactIff(x: real, lo: real, rng: real, cb: seq<real>)
    requires cb != [] && rng > 0.0
    ensures Restored(x, lo, rng, cb) == x <==> Unit(x, lo, rng) in cb
  {
    hide Near;
    var u := Unit(x, lo, rng);
    var q := cb[Near(u, cb)];
    assert u * rng == x - lo;
    assert Restored(x, lo, rng, cb) - x == (q - u) * rng;
    SignOfProduct(q - u, rng);
    if u in cb {
      var j: nat :| j < |cb| && cb[j] == u;
      LookupExact(u, cb, j);
    }
  }

  /** One entry of a column with minimum lo and maximum hi. */
  lemma EntryError(x: real, lo: real, hi: real, cb: seq<real>)
    requires Pinned(cb) && lo <= x <= hi
    ensures SafeRange(lo, hi) > 0.0
    ensures var y := Restored(x, lo, SafeRange(lo, hi), cb);
            && 2.0 * Dist(x, y) <= Times(Widest(cb), SafeRange(lo, hi))
            && (x == lo ==> y == x)
            && (x == hi ==> (y == x <==> hi - lo >= NEGLIGIBLE || hi - lo in cb))
            && (y == x <==> Unit(x, lo, SafeRange(lo, hi)) in cb)
  {
    hide Near, Widest, Restored, Unit, Times, SafeRange;
    UnitInterval(x, lo, hi);
    LookupError(Unit(x, lo, SafeRange(lo, hi)), cb);
    RestoredError(x, lo, SafeRange(lo, hi), cb, Widest(cb));
    ExactIff(x, lo, SafeRange(lo, hi), cb);
    assert cb[0] == 0.0 && cb[|cb| - 1] == 1.0;
  }

  /** Every entry of every matrix: within half the widest gap of the codebook times
      the column's range, and exact exactly if its place in the column's unit interval is
      a codeword; so the minimum always is, and the maximum exactly where the range is not
      negligible or is itself a codeword, as 0 is for a constant column. */
  lemma ColumnWiseError(d: seq<real>, rows: nat, cols: nat, k: nat, rounds: nat, i: nat)
    requires cols > 0 && rows > 0 && |d| == rows * cols && k >= 2 && i < |d|
    ensures var c := ColOf(i, cols);
            var lo, hi, rng := Lo(d, rows, cols, c), Hi(d, rows, cols, c), Range(d, rows, cols, c);
            var cb := PinnedBook(Normalized(d, rows, cols), k, rounds);
            && rng > 0.0 && cb[0] == 0.0
            && 2.0 * Dist(d[i], RestoredAt(d, rows, cols, cb, i)) <= Times(Widest(cb), rng)
            && (RestoredAt(d, rows, cols, cb, i) == d[i] <==> Normalized(d, rows, cols)[i] in cb)
            && (d[i] == lo ==> RestoredAt(d, rows, cols, cb, i) == d[i])
            && (d[i] == hi ==> (RestoredAt(d, rows, cols, cb, i) == d[i] <==> hi - lo >= NEGLIGIBLE || hi - lo in cb))
  {
    hide *;
    InColumn(d, rows, cols, i);
    PinnedTraining(Normalized(d, rows, cols), k, rounds);
    var cb := PinnedBook(Normalized(d, rows, cols), k, rounds);
    StartsAtZero(cb);
    EntryAt(d, rows, cols, cb, i);
    var c := ColOf(i, cols);
    EntryError(d[i], Lo(d, rows, cols, c), Hi(d, rows, cols, c), cb);
  }

  lemma StartsAtZero(cb: seq<real>)
    requires Pinned(cb)
    ensures |cb| >= 2 && cb[0] == 0.0
  {
  }

  lemma EntryAt(d: seq<real>, rows: nat, cols: nat, cb: seq<real>, i: nat)
    requires cols > 0 && rows > 0 && |d| == rows * cols && i < |d| && cb != []
    ensures var c := ColOf(i, cols);
            var lo, hi := Lo(d, rows, cols, c), Hi(d, rows, cols, c);
            && Range(d, rows, cols, c) == SafeRange(lo, hi) > 0.0
            && RestoredAt(d, rows, cols, cb, i) == Restored(d[i], lo, SafeRange(lo, hi), cb)
            && Normalized(d, rows, cols)[i] == Unit(d[i], lo, SafeRange(lo, hi))
  {
    hide Lo, Hi, Restored, Unit, ColOf;
    InColumn(d, rows, cols, i);
  }
}
