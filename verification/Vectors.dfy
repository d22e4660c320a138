/** Real vectors: sums, distances, and scattering a value over a list of positions. */
module Vectors {

  type Vec = seq<real>

  function Sum(v: Vec): real {
    if v == [] then 0.0 else Sum(v[..|v| - 1]) + v[|v| - 1]
  }

  function Abs(x: real): real {
    if x >= 0.0 then x else -x
  }

  function AbsVec(v: Vec): (r: Vec)
    ensures |r| == |v| && forall i | 0 <= i < |v| :: r[i] == Abs(v[i])
  {
    seq(|v|, i requires 0 <= i < |v| => Abs(v[i]))
  }

  function L1(v: Vec): real {
    Sum(AbsVec(v))
  }

  function Minus(v: Vec, w: Vec): (r: Vec)
    requires |v| == |w|
    ensures |r| == |v| && forall i | 0 <= i < |v| :: r[i] == v[i] - w[i]
  {
    seq(|v|, i requires 0 <= i < |v| => v[i] - w[i])
  }

  function Plus(v: Vec, w: Vec): (r: Vec)
    requires |v| == |w|
    ensures |r| == |v| && forall i | 0 <= i < |v| :: r[i] == v[i] + w[i]
  {
    seq(|v|, i requires 0 <= i < |v| => v[i] + w[i])
  }

  function Scaled(a: real, v: Vec): (r: Vec)
    ensures |r| == |v| && forall i | 0 <= i < |v| :: r[i] == a * v[i]
  {
    seq(|v|, i requires 0 <= i < |v| => a * v[i])
  }

  function Zeros(n: nat): (r: Vec)
    ensures |r| == n && forall i | 0 <= i < n :: r[i] == 0.0
  {
    seq(n, _ => 0.0)
  }

  ghost predicate NonNegative(v: Vec) {
    forall i | 0 <= i < |v| :: v[i] >= 0.0
  }

  lemma {:induction false} SumUpdate(v: Vec, i: nat, x: real)
    requires i < |v|
    ensures Sum(v[i := x]) == Sum(v) - v[i] + x
  {
    var less := v[..|v| - 1];
    if i == |v| - 1 {
      assert v[i := x][..|v| - 1] == less;
    } else {
      SumUpdate(less, i, x);
      assert v[i := x][..|v| - 1] == less[i := x];
    }
  }

  lemma {:induction false} SumAtLeast(v: Vec, w: Vec)
    requires |v| == |w| && forall i | 0 <= i < |v| :: v[i] <= w[i]
    ensures Sum(v) <= Sum(w)
  {
    if v != [] {
      SumAtLeast(v[..|v| - 1], w[..|w| - 1]);
    }
  }

  lemma {:induction false} SumZeros(v: Vec)
    requires forall i | 0 <= i < |v| :: v[i] == 0.0
    ensures Sum(v) == 0.0
  {
    if v != [] {
      SumZeros(v[..|v| - 1]);
    }
  }

  lemma {:induction false} SumPlus(v: Vec, w: Vec)
    requires |v| == |w|
    ensures Sum(Plus(v, w)) == Sum(v) + Sum(w)
  {
    if v != [] {
      var n := |v| - 1;
      SumPlus(v[..n], w[..n]);
      assert Plus(v, w)[..n] == Plus(v[..n], w[..n]);
    }
  }

  lemma ScaledPrefix(a: real, v: Vec, n: nat)
    requires n <= |v|
    ensures Scaled(a, v)[..n] == Scaled(a, v[..n])
  {
    forall i | 0 <= i < n ensures Scaled(a, v)[..n][i] == Scaled(a, v[..n])[i] {
      assert v[..n][i] == v[i];
    }
  }

  lemma {:induction false} SumScaled(a: real, v: Vec)
    ensures Sum(Scaled(a, v)) == a * Sum(v)
  {
    if v != [] {
      var n := |v| - 1;
      SumScaled(a, v[..n]);
      ScaledPrefix(a, v, n);
      Distribute(a, Sum(v[..n]), v[n]);
    }
  }

  lemma Distribute(a: real, x: real, y: real)
    ensures a * (x + y) == a * x + a * y
  {
  }

  lemma {:induction false} SumBoundsEntry(v: Vec, i: nat)
    requires NonNegative(v) && i < |v|
    ensures v[i] <= Sum(v)
  {
    if i < |v| - 1 {
      SumBoundsEntry(v[..|v| - 1], i);
    } else {
      SumIsNonNegative(v[..|v| - 1]);
    }
  }

  lemma {:induction false} SumIsNonNegative(v: Vec)
    requires NonNegative(v)
    ensures Sum(v) >= 0.0
  {
    if v != [] {
      SumIsNonNegative(v[..|v| - 1]);
    }
  }

  /** A positive sum of non-negative entries has a positive entry. */
  lemma {:induction false} PositiveEntry(v: Vec) returns (i: nat)
    requires NonNegative(v) && Sum(v) > 0.0
    ensures i < |v| && v[i] > 0.0
  {
    if v[|v| - 1] > 0.0 {
      i := |v| - 1;
    } else {
      i := PositiveEntry(v[..|v| - 1]);
    }
  }

  lemma TriangleL1(v: Vec, w: Vec)
    requires |v| == |w|
    ensures L1(Minus(v, w)) <= L1(v) + L1(w)
  {
    var p, q := AbsVec(v), AbsVec(w);
    var bound := Plus(p, q);
    SumPlus(p, q);
    assert forall i | 0 <= i < |v| :: AbsVec(Minus(v, w))[i] <= bound[i];
    SumAtLeast(AbsVec(Minus(v, w)), bound);
  }

  lemma L1OfNonNegative(v: Vec)
    requires NonNegative(v)
    ensures L1(v) == Sum(v)
  {
    assert AbsVec(v) == v;
  }

  // ---------------------------------------------------------------------------
  // Scattering
  // ---------------------------------------------------------------------------

  ghost predicate Below(targets: seq<nat>, n: nat) {
    forall k | 0 <= k < |targets| :: targets[k] < n
  }

  /** Add `c` at every position listed, as often as it is listed. */
  function Scatter(v: Vec, targets: seq<nat>, c: real): (r: Vec)
    requires Below(targets, |v|)
    ensures |r| == |v|
  {
    if targets == [] then v
    else
      var before := Scatter(v, targets[..|targets| - 1], c);
      var j := targets[|targets| - 1];
      before[j := before[j] + c]
  }

  /** `c` taken `k` times. */
  function Times(c: real, k: nat): real {
    if k == 0 then 0.0 else Times(c, k - 1) + c
  }

  lemma {:induction false} TimesIsProduct(c: real, k: nat)
    ensures Times(c, k) == c * k as real
  {
    if k > 0 {
      TimesIsProduct(c, k - 1);
      Distribute(c, (k - 1) as real, 1.0);
      assert k as real == (k - 1) as real + 1.0;
      assert c * 1.0 == c;
    }
  }

  lemma {:induction false} ScatterSum(v: Vec, targets: seq<nat>, c: real)
    requires Below(targets, |v|)
    ensures Sum(Scatter(v, targets, c)) == Sum(v) + Times(c, |targets|)
  {
    if targets != [] {
      var less := targets[..|targets| - 1];
      ScatterSum(v, less, c);
      var before, j := Scatter(v, less, c), targets[|targets| - 1];
      SumUpdate(before, j, before[j] + c);
    }
  }

  /** Where it arrives. */
  lemma {:induction false} ScatterEntry(v: Vec, targets: seq<nat>, c: real, j: nat)
    requires Below(targets, |v|) && j < |v|
    ensures Scatter(v, targets, c)[j] == v[j] + Times(c, multiset(targets)[j])
  {
    if targets != [] {
      var less, last := targets[..|targets| - 1], targets[|targets| - 1];
      ScatterEntry(v, less, c, j);
      assert targets == less + [last];
    }
  }

  lemma {:induction false} ScatterGrows(v: Vec, targets: seq<nat>, c: real)
    requires Below(targets, |v|) && c >= 0.0
    ensures forall i | 0 <= i < |v| :: Scatter(v, targets, c)[i] >= v[i]
  {
    if targets != [] {
      ScatterGrows(v, targets[..|targets| - 1], c);
    }
  }

  lemma {:induction false} ScatterNothing(v: Vec, targets: seq<nat>)
    requires Below(targets, |v|)
    ensures Scatter(v, targets, 0.0) == v
  {
    if targets != [] {
      ScatterNothing(v, targets[..|targets| - 1]);
    }
  }

  /** Scattering is linear. */
  lemma {:induction false} ScatterMinus(v: Vec, w: Vec, targets: seq<nat>, c: real, d: real)
    requires |v| == |w| && Below(targets, |v|)
    ensures Minus(Scatter(v, targets, c), Scatter(w, targets, d)) == Scatter(Minus(v, w), targets, c - d)
  {
    if targets != [] {
      ScatterMinus(v, w, targets[..|targets| - 1], c, d);
    }
  }

  /** And it adds at most its total mass to the norm. */
  lemma {:induction false} ScatterNorm(v: Vec, targets: seq<nat>, c: real)
    requires Below(targets, |v|)
    ensures L1(Scatter(v, targets, c)) <= L1(v) + Times(Abs(c), |targets|)
  {
    if targets != [] {
      var less := targets[..|targets| - 1];
      ScatterNorm(v, less, c);
      var before, j := Scatter(v, less, c), targets[|targets| - 1];
      var after := before[j := before[j] + c];
      assert AbsVec(after) == AbsVec(before)[j := Abs(before[j] + c)];
      SumUpdate(AbsVec(before), j, Abs(before[j] + c));
    }
  }
}
