/** The nearest-entry search of the quantizers: squared distances, compared with a starting
    value `far` first and then with the best so far. */
module NearestSearch {
  import opened Lloyd
  import opened Reals

  /** The search after the entries of cb: the index found, and its squared distance. */
  function Search(v: real, cb: seq<real>, far: real): (r: (nat, real))
    ensures r.0 < |cb| || r.0 == 0
  {
    if cb == [] then (0, far)
    else
      var n := |cb| - 1;
      var (best, dist) := Search(v, cb[..n], far);
      if Sq(v - cb[n]) < dist then (n, Sq(v - cb[n])) else (best, dist)
  }

  function Best(v: real, cb: seq<real>, far: real): (b: nat)
    ensures b < |cb| || b == 0
  {
    Search(v, cb, far).0
  }

  predicate Minimal(v: real, cb: seq<real>, b: nat)
    requires b < |cb|
  {
    forall c | 0 <= c < |cb| :: Sq(v - cb[b]) <= Sq(v - cb[c])
  }

  predicate InReach(v: real, cb: seq<real>, far: real) {
    exists c :: 0 <= c < |cb| && Sq(v - cb[c]) < far
  }

  lemma InReachStep(v: real, cb: seq<real>, far: real)
    requires cb != []
    ensures InReach(v, cb, far) <==> InReach(v, cb[..|cb| - 1], far) || Sq(v - cb[|cb| - 1]) < far
  {
    hide Sq;
    var n := |cb| - 1;
    if InReach(v, cb[..n], far) {
      var c :| 0 <= c < n && Sq(v - cb[..n][c]) < far;
      assert cb[..n][c] == cb[c];
    }
    if InReach(v, cb, far) {
      var c :| 0 <= c < |cb| && Sq(v - cb[c]) < far;
      assert c < n ==> cb[..n][c] == cb[c];
    }
  }

  lemma NothingInReach(v: real, far: real)
    ensures !InReach(v, [], far)
  {
  }

  lemma {:induction false} SearchIs(v: real, cb: seq<real>, far: real)
    ensures forall c | 0 <= c < |cb| :: Search(v, cb, far).1 <= Sq(v - cb[c])
    ensures Search(v, cb, far).1 <= far
    ensures InReach(v, cb, far) ==>
              && Search(v, cb, far).0 < |cb|
              && Search(v, cb, far).1 == Sq(v - cb[Search(v, cb, far).0])
              && forall c | 0 <= c < Search(v, cb, far).0 :: Sq(v - cb[c]) > Search(v, cb, far).1
    ensures !InReach(v, cb, far) ==> Search(v, cb, far) == (0, far)
  {
    hide Sq, InReach;
    if cb == [] {
      assert !InReach(v, cb, far) by { NothingInReach(v, far); }
    } else {
      var n := |cb| - 1;
      SearchIs(v, cb[..n], far);
      InReachStep(v, cb, far);
    }
  }

  /** The search finds an entry at minimal squared distance, exactly if some distance is below
      the starting value or the first entry is as near as any. */
  lemma BestIsMinimalIff(v: real, cb: seq<real>, far: real)
    requires cb != []
    ensures Minimal(v, cb, Best(v, cb, far)) <==> InReach(v, cb, far) || Minimal(v, cb, 0)
  {
    hide Sq;
    SearchIs(v, cb, far);
  }

  /** Among entries equally near the first is taken. */
  lemma BestIsFirst(v: real, cb: seq<real>, far: real, c: nat)
    requires InReach(v, cb, far) && c < |cb| && Minimal(v, cb, c)
    ensures Best(v, cb, far) <= c
  {
    hide Sq;
    SearchIs(v, cb, far);
  }

  method FindBest(v: real, cb: seq<real>, far: real) returns (best: nat)
    ensures best == Best(v, cb, far)
  {
    best := 0;
    var bestDist := far;
    for c := 0 to |cb|
      invariant (best, bestDist) == Search(v, cb[..c], far)
    {
      assert cb[..c + 1][..c] == cb[..c];
      var d := v - cb[c];
      assert Sq(d) == d * d;
      if d * d < bestDist {
        bestDist := d * d;
        best := c;
      }
    }
    assert cb[..|cb|] == cb;
  }

  /** With an entry in reach the search agrees with `lm_near`, which compares absolute
      distances and starts from the first entry. */
  lemma BestIsNear(v: real, cb: seq<real>, far: real)
    requires InReach(v, cb, far) && cb != []
    ensures Best(v, cb, far) == Near(v, cb)
  {
    hide Sq, InReach, Near, Dist;
    SearchIs(v, cb, far);
    var b, n := Best(v, cb, far), Near(v, cb);
    SquaresOrder(v, cb[b], cb[n]);
    SquaresOrder(v, cb[n], cb[b]);
  }

  lemma SquaresOrder(x: real, c: real, d: real)
    ensures Dist(x, c) <= Dist(x, d) <==> Sq(x - c) <= Sq(x - d)
  {
    if Dist(x, c) <= Dist(x, d) {
      NearerIsCheaper(x, c, d);
    } else {
      FartherIsDearer(x, c, d);
    }
  }

  lemma FartherIsDearer(x: real, c: real, d: real)
    requires Dist(x, c) > Dist(x, d)
    ensures Sq(x - c) > Sq(x - d)
  {
    var p, q := Dist(x, c), Dist(x, d);
    assert Sq(x - c) == p * p && Sq(x - d) == q * q;
    SquareLess(q, p);
  }

  lemma SquareLess(q: real, p: real)
    requires 0.0 <= q < p
    ensures q * q < p * p
  {
    var d := p - q;
    assert p * p == q * q + d * q + p * d;
    SignOfProduct(p, d);
    SignOfProduct(q, d);
  }
}
