/** The Personalized PageRank iteration: mass bounds, contraction and normalised scores.
    Scores are exact reals; floating-point rounding is not modelled. */
module PageRank {
  import opened Vectors

  /** Adjacency lists over nodes `0 .. |out|`. */
  type Graph = seq<seq<nat>>

  ghost predicate GoodGraph(out: Graph) {
    forall i | 0 <= i < |out| :: Below(out[i], |out|)
  }

  function Degree(out: Graph, i: nat): (d: real)
    requires i < |out|
    ensures d >= 1.0 && d >= |out[i]| as real
  {
    if |out[i]| > 1 then |out[i]| as real else 1.0
  }

  // ---------------------------------------------------------------------------
  // One walk
  // ---------------------------------------------------------------------------

  /** The mass that the first `i` nodes send to their neighbours. */
  function WalkUpTo(out: Graph, r: Vec, i: nat): (w: Vec)
    requires GoodGraph(out) && |r| == |out| && i <= |out|
    ensures |w| == |out|
  {
    if i == 0 then Zeros(|out|)
    else Scatter(WalkUpTo(out, r, i - 1), out[i - 1], Share(out, i - 1, r[i - 1]))
  }

  function Walk(out: Graph, r: Vec): (w: Vec)
    requires GoodGraph(out) && |r| == |out|
    ensures |w| == |out|
  {
    WalkUpTo(out, r, |out|)
  }

  /** What node `i` hands to each neighbour. */
  function Share(out: Graph, i: nat, x: real): real
    requires i < |out|
  {
    x / Degree(out, i)
  }

  /** A node hands on no more than it has. */
  lemma ShareOfMass(out: Graph, i: nat, x: real)
    requires i < |out|
    ensures x >= 0.0 ==> Share(out, i, x) >= 0.0
    ensures Times(Abs(Share(out, i, x)), |out[i]|) <= Abs(x)
  {
    var d, q := Degree(out, i), Share(out, i, x);
    TimesIsProduct(Abs(q), |out[i]|);
    QuotientBounds(x, d, |out[i]| as real);
  }

  lemma QuotientBounds(x: real, d: real, k: real)
    requires d >= 1.0 && 0.0 <= k <= d
    ensures x >= 0.0 ==> x / d >= 0.0
    ensures Abs(x / d) * k <= Abs(x)
  {
    var q := x / d;
    assert q * d == x;
    if x >= 0.0 {
      QuotientSign(x, d);
      ProductGrows(q, k, d);
    } else {
      QuotientSign(-x, d);
      assert (-x) / d == -q;
      ProductGrows(-q, k, d);
      assert (-q) * d == -x;
    }
  }

  lemma QuotientSign(x: real, d: real)
    requires x >= 0.0 && d >= 1.0
    ensures x / d >= 0.0
  {
  }

  lemma ProductGrows(q: real, k: real, d: real)
    requires q >= 0.0 && k <= d
    ensures q * k <= q * d
  {
  }

  lemma {:induction false} WalkLosesMass(out: Graph, r: Vec, i: nat)
    requires GoodGraph(out) && |r| == |out| && i <= |out| && NonNegative(r)
    ensures NonNegative(WalkUpTo(out, r, i))
    ensures Sum(WalkUpTo(out, r, i)) <= Sum(r[..i])
  {
    if i == 0 {
      SumZeros(Zeros(|out|));
    } else {
      WalkLosesMass(out, r, i - 1);
      var c := Share(out, i - 1, r[i - 1]);
      ShareOfMass(out, i - 1, r[i - 1]);
      ScatterSum(WalkUpTo(out, r, i - 1), out[i - 1], c);
      ScatterGrows(WalkUpTo(out, r, i - 1), out[i - 1], c);
      assert r[..i][..i - 1] == r[..i - 1];
    }
  }

  /** What the first `i` nodes hand to node `j`, one by one: a node with `d` neighbours gives each occurrence of `j`
      among them the `d`-th part of what it has. */
  function Gifts(out: Graph, r: Vec, j: nat, i: nat): (g: Vec)
    requires |r| == |out| && i <= |out|
    ensures |g| == i && forall k | 0 <= k < i ::
              g[k] == if out[k] == [] then 0.0 else Times(r[k] / |out[k]| as real, multiset(out[k])[j])
  {
    seq(i, k requires 0 <= k < i =>
      if out[k] == [] then 0.0 else Times(r[k] / |out[k]| as real, multiset(out[k])[j]))
  }

  /** After a walk each node has what the nodes linked to it gave. */
  lemma {:induction false} WalkEntry(out: Graph, r: Vec, j: nat, i: nat)
    requires GoodGraph(out) && |r| == |out| && i <= |out| && j < |out|
    ensures WalkUpTo(out, r, i)[j] == Sum(Gifts(out, r, j, i))
  {
    if i > 0 {
      WalkEntry(out, r, j, i - 1);
      ScatterEntry(WalkUpTo(out, r, i - 1), out[i - 1], Share(out, i - 1, r[i - 1]), j);
      assert Gifts(out, r, j, i)[..i - 1] == Gifts(out, r, j, i - 1);
    }
  }

  /** The mass of the nodes that have neighbours. */
  function Linked(out: Graph, r: Vec, i: nat): real
    requires |r| == |out| && i <= |out|
  {
    if i == 0 then 0.0 else Linked(out, r, i - 1) + if out[i - 1] == [] then 0.0 else r[i - 1]
  }

  /** A walk keeps exactly that mass. */
  lemma {:induction false} WalkKeepsLinkedMass(out: Graph, r: Vec, i: nat)
    requires GoodGraph(out) && |r| == |out| && i <= |out|
    ensures Sum(WalkUpTo(out, r, i)) == Linked(out, r, i)
  {
    if i == 0 {
      SumZeros(Zeros(|out|));
    } else {
      WalkKeepsLinkedMass(out, r, i - 1);
      var c := Share(out, i - 1, r[i - 1]);
      ScatterSum(WalkUpTo(out, r, i - 1), out[i - 1], c);
      TimesIsProduct(c, |out[i - 1]|);
      WholeShare(r[i - 1], |out[i - 1]|);
    }
  }

  lemma WholeShare(x: real, k: nat)
    ensures k > 0 ==> x / k as real * k as real == x
  {
  }

  /** Walking is linear. */
  lemma {:induction false} WalkMinus(out: Graph, x: Vec, y: Vec, i: nat)
    requires GoodGraph(out) && |x| == |y| == |out| && i <= |out|
    ensures Minus(WalkUpTo(out, x, i), WalkUpTo(out, y, i)) == WalkUpTo(out, Minus(x, y), i)
  {
    if i > 0 {
      WalkMinus(out, x, y, i - 1);
      var cx, cy := Share(out, i - 1, x[i - 1]), Share(out, i - 1, y[i - 1]);
      QuotientMinus(x[i - 1], y[i - 1], Degree(out, i - 1));
      ScatterMinus(WalkUpTo(out, x, i - 1), WalkUpTo(out, y, i - 1), out[i - 1], cx, cy);
    }
  }

  lemma QuotientMinus(x: real, y: real, d: real)
    requires d >= 1.0
    ensures x / d - y / d == (x - y) / d
  {
  }

  /** Walking does not increase the L1 norm. */
  lemma {:induction false} WalkShrinks(out: Graph, z: Vec, i: nat)
    requires GoodGraph(out) && |z| == |out| && i <= |out|
    ensures L1(WalkUpTo(out, z, i)) <= L1(z[..i])
  {
    if i == 0 {
      assert AbsVec(Zeros(|out|)) == Zeros(|out|);
      SumZeros(Zeros(|out|));
      assert AbsVec(z[..0]) == [];
    } else {
      WalkShrinks(out, z, i - 1);
      ScatterNorm(WalkUpTo(out, z, i - 1), out[i - 1], Share(out, i - 1, z[i - 1]));
      ShareOfMass(out, i - 1, z[i - 1]);
      assert AbsVec(z[..i])[..i - 1] == AbsVec(z[..i - 1]);
    }
  }

  // ---------------------------------------------------------------------------
  // The iteration
  // ---------------------------------------------------------------------------

  function Mix(beta: real, w: Vec, seed: Vec): (r: Vec)
    requires |w| == |seed|
    ensures |r| == |w|
  {
    Plus(Scaled(beta, w), Scaled(1.0 - beta, seed))
  }

  function Step(beta: real, out: Graph, seed: Vec, r: Vec): (r': Vec)
    requires GoodGraph(out) && |seed| == |r| == |out|
    ensures |r'| == |out|
  {
    Mix(beta, Walk(out, r), seed)
  }

  /** `n` steps from any starting vector. */
  function Run(beta: real, out: Graph, seed: Vec, start: Vec, n: nat): (r: Vec)
    requires GoodGraph(out) && |seed| == |start| == |out|
    ensures |r| == |out|
  {
    if n == 0 then start else Step(beta, out, seed, Run(beta, out, seed, start, n - 1))
  }

  function Iterate(beta: real, out: Graph, seed: Vec, n: nat): (r: Vec)
    requires GoodGraph(out) && |seed| == |out|
    ensures |r| == |out|
  {
    Run(beta, out, seed, seed, n)
  }

  ghost predicate GoodSeed(seed: Vec) {
    NonNegative(seed) && Sum(seed) == 1.0
  }

  lemma ScaledStaysPositive(a: real, v: Vec)
    requires a >= 0.0 && NonNegative(v)
    ensures NonNegative(Scaled(a, v))
  {
    forall i | 0 <= i < |v| ensures Scaled(a, v)[i] >= 0.0 {
      ProductGrows(a, 0.0, v[i]);
    }
  }

  lemma ScaledMass(a: real, v: Vec)
    requires a >= 0.0 && NonNegative(v) && Sum(v) <= 1.0
    ensures Sum(Scaled(a, v)) <= a
    ensures Sum(v) == 1.0 ==> Sum(Scaled(a, v)) == a
  {
    SumScaled(a, v);
    ProductBounds(a, Sum(v), Sum(Scaled(a, v)));
  }

  lemma PlusFacts(p: Vec, q: Vec, a: real)
    requires |p| == |q| && NonNegative(p) && NonNegative(q) && Sum(p) + a <= 1.0 && Sum(q) == a
    ensures Bounded(a, q, Plus(p, q))
  {
    SumPlus(p, q);
    SumIsNonNegative(p);
  }

  lemma MixFacts(beta: real, rest: real, w: Vec, seed: Vec, p: Vec, q: Vec)
    requires 0.0 <= beta && 0.0 <= rest == 1.0 - beta
    requires |w| == |seed| && NonNegative(w) && GoodSeed(seed) && Sum(w) <= 1.0
    requires p == Scaled(beta, w) && q == Scaled(rest, seed)
    ensures Bounded(rest, q, Plus(p, q))
  {
    ScaledStaysPositive(beta, w);
    ScaledStaysPositive(rest, seed);
    ScaledMass(beta, w);
    ScaledMass(rest, seed);
    PlusFacts(p, q, rest);
  }

  lemma ProductBounds(a: real, s: real, p: real)
    requires 0.0 <= a && s <= 1.0 && p == a * s
    ensures p <= a
    ensures s == 1.0 ==> p == a
  {
  }

  /** `r` is a mass vector that holds at least `a` in all and at least `floor` everywhere. */
  ghost predicate Bounded(a: real, floor: Vec, r: Vec) {
    && NonNegative(r) && a <= Sum(r) <= 1.0
    && |r| == |floor| && forall i | 0 <= i < |r| :: r[i] >= floor[i]
  }

  /** Every iterate is non-negative, keeps its mass between `1 - beta` and 1, and gives each
      node at least its share of the teleport. */
  lemma {:induction false} IterateBounds(beta: real, out: Graph, seed: Vec, n: nat)
    requires 0.0 <= beta <= 1.0 && GoodGraph(out) && |seed| == |out| && GoodSeed(seed)
    ensures Bounded(1.0 - beta, Scaled(1.0 - beta, seed), Iterate(beta, out, seed, n))
  {
    if n == 0 {
      SeedExceedsItsShare(beta, seed);
    } else {
      IterateBounds(beta, out, seed, n - 1);
      var r := Iterate(beta, out, seed, n - 1);
      WalkLosesMass(out, r, |out|);
      assert r[..|out|] == r;
      var w, rest := Walk(out, r), 1.0 - beta;
      MixFacts(beta, rest, w, seed, Scaled(beta, w), Scaled(rest, seed));
    }
  }

  lemma SeedExceedsItsShare(beta: real, seed: Vec)
    requires 0.0 <= beta <= 1.0 && GoodSeed(seed)
    ensures Bounded(1.0 - beta, Scaled(1.0 - beta, seed), seed)
  {
    forall i | 0 <= i < |seed| ensures seed[i] >= Scaled(1.0 - beta, seed)[i] {
      ProductBounds(seed[i], 1.0 - beta, Scaled(1.0 - beta, seed)[i]);
    }
  }

  /** One step brings two vectors closer by the factor `beta`. */
  lemma StepContracts(beta: real, out: Graph, seed: Vec, x: Vec, y: Vec)
    requires 0.0 <= beta && GoodGraph(out) && |seed| == |x| == |y| == |out|
    ensures Distance(Step(beta, out, seed, x), Step(beta, out, seed, y)) <= beta * Distance(x, y)
  {
    WalkContracts(out, x, y);
    MixMinus(beta, Walk(out, x), Walk(out, y), seed);
    ProductGrows(beta, Distance(Walk(out, x), Walk(out, y)), Distance(x, y));
  }

  lemma WalkContracts(out: Graph, x: Vec, y: Vec)
    requires GoodGraph(out) && |x| == |y| == |out|
    ensures Distance(Walk(out, x), Walk(out, y)) <= Distance(x, y)
  {
    var z := Minus(x, y);
    WalkMinus(out, x, y, |out|);
    WalkShrinks(out, z, |out|);
    assert z[..|out|] == z;
  }

  /** Blending with the seed scales every distance by `beta`. */
  lemma MixMinus(beta: real, a: Vec, b: Vec, seed: Vec)
    requires beta >= 0.0 && |a| == |b| == |seed|
    ensures Distance(Mix(beta, a, seed), Mix(beta, b, seed)) == beta * Distance(a, b)
  {
    MixMinusEntries(beta, a, b, seed);
    DistanceFromEntries(beta, Mix(beta, a, seed), Mix(beta, b, seed), a, b);
  }

  lemma DistanceFromEntries(beta: real, x: Vec, y: Vec, a: Vec, b: Vec)
    requires |x| == |y| == |a| == |b| && AbsVec(Minus(x, y)) == Scaled(beta, AbsVec(Minus(a, b)))
    ensures Distance(x, y) == beta * Distance(a, b)
  {
    SumScaled(beta, AbsVec(Minus(a, b)));
  }

  lemma MixMinusEntries(beta: real, a: Vec, b: Vec, seed: Vec)
    requires beta >= 0.0 && |a| == |b| == |seed|
    ensures AbsVec(Minus(Mix(beta, a, seed), Mix(beta, b, seed))) == Scaled(beta, AbsVec(Minus(a, b)))
  {
    PlusMinus(Scaled(beta, a), Scaled(beta, b), Scaled(1.0 - beta, seed));
    ScaledDistance(beta, a, b);
  }

  lemma PlusMinus(p: Vec, q: Vec, s: Vec)
    requires |p| == |q| == |s|
    ensures Minus(Plus(p, s), Plus(q, s)) == Minus(p, q)
  {
  }

  lemma ScaledDistance(beta: real, a: Vec, b: Vec)
    requires beta >= 0.0 && |a| == |b|
    ensures AbsVec(Minus(Scaled(beta, a), Scaled(beta, b))) == Scaled(beta, AbsVec(Minus(a, b)))
  {
    var left, right := AbsVec(Minus(Scaled(beta, a), Scaled(beta, b))), Scaled(beta, AbsVec(Minus(a, b)));
    forall i | 0 <= i < |a| ensures left[i] == right[i] {
      ScaledAbs(beta, a[i], b[i]);
    }
  }

  lemma ScaledAbs(beta: real, a: real, b: real)
    requires beta >= 0.0
    ensures Abs(beta * a - beta * b) == beta * Abs(a - b)
  {
    var d := a - b;
    assert beta * a - beta * b == beta * d;
    if d >= 0.0 {
      ProductGrows(beta, 0.0, d);
    } else {
      ProductGrows(beta, 0.0, -d);
      assert beta * -d == -(beta * d);
    }
  }

  function Power(beta: real, n: nat): real {
    if n == 0 then 1.0 else beta * Power(beta, n - 1)
  }

  function Distance(x: Vec, y: Vec): real
    requires |x| == |y|
  {
    L1(Minus(x, y))
  }

  /** `b` multiplied by `beta`, `n` times over. */
  function Shrunk(beta: real, n: nat, b: real): real {
    if n == 0 then b else beta * Shrunk(beta, n - 1, b)
  }

  ghost predicate Near(x: Vec, y: Vec, d: real) {
    |x| == |y| && Distance(x, y) <= d
  }

  lemma StepShrinks(beta: real, out: Graph, seed: Vec, x: Vec, y: Vec, bound: real)
    requires 0.0 <= beta && GoodGraph(out) && |seed| == |x| == |y| == |out| && Near(x, y, bound)
    ensures Near(Step(beta, out, seed, x), Step(beta, out, seed, y), beta * bound)
  {
    StepContracts(beta, out, seed, x, y);
    ProductGrows(beta, Distance(x, y), bound);
  }

  /** Two runs from any two vectors approach each other geometrically. */
  lemma {:induction false} RunsApproach(beta: real, out: Graph, seed: Vec, x: Vec, y: Vec, n: nat, d: real)
    requires 0.0 <= beta && GoodGraph(out) && |seed| == |x| == |y| == |out| && Near(x, y, d)
    ensures Near(Run(beta, out, seed, x, n), Run(beta, out, seed, y, n), Shrunk(beta, n, d))
  {
    if n > 0 {
      RunsApproach(beta, out, seed, x, y, n - 1, d);
      StepShrinks(beta, out, seed, Run(beta, out, seed, x, n - 1), Run(beta, out, seed, y, n - 1),
                  Shrunk(beta, n - 1, d));
    }
  }

  lemma {:induction false} RunSplits(beta: real, out: Graph, seed: Vec, start: Vec, k: nat, n: nat)
    requires GoodGraph(out) && |seed| == |start| == |out|
    ensures Run(beta, out, seed, Run(beta, out, seed, start, k), n) == Run(beta, out, seed, start, n + k)
  {
    if n > 0 {
      RunSplits(beta, out, seed, start, k, n - 1);
    }
  }

  lemma {:induction false} ShrunkIsProduct(beta: real, n: nat, b: real)
    ensures Shrunk(beta, n, b) == b * Power(beta, n)
  {
    if n > 0 {
      ShrunkIsProduct(beta, n - 1, b);
      Reorder(beta, b, Power(beta, n - 1));
    }
  }

  lemma Reorder(x: real, y: real, z: real)
    ensures x * (y * z) == y * (x * z)
  {
  }

  lemma SeedIsNearLaterIterates(beta: real, out: Graph, seed: Vec, k: nat)
    requires 0.0 <= beta <= 1.0 && GoodGraph(out) && |seed| == |out| && GoodSeed(seed)
    ensures Near(seed, Iterate(beta, out, seed, k), 2.0)
  {
    var later := Iterate(beta, out, seed, k);
    IterateBounds(beta, out, seed, k);
    TriangleL1(seed, later);
    L1OfNonNegative(seed);
    L1OfNonNegative(later);
  }

  /** Stopping after `n` iterations is within `2 * beta^n` of every later iterate. */
  lemma StoppingError(beta: real, out: Graph, seed: Vec, n: nat, k: nat)
    requires 0.0 <= beta <= 1.0 && GoodGraph(out) && |seed| == |out| && GoodSeed(seed)
    ensures Near(Iterate(beta, out, seed, n), Iterate(beta, out, seed, n + k), 2.0 * Power(beta, n))
  {
    SeedIsNearLaterIterates(beta, out, seed, k);
    RunsApproach(beta, out, seed, seed, Iterate(beta, out, seed, k), n, 2.0);
    RunSplits(beta, out, seed, seed, k, n);
    ShrunkIsProduct(beta, n, 2.0);
  }
}
