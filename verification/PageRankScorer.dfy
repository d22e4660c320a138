/** Scoring candidate files by Personalized PageRank over the code graph around them. */
module PageRankScorer {
  import opened Vectors
  import opened PageRank

  type NodeId(==, !new)

  datatype Candidate = Candidate(path: string, similarity: real)

  datatype Edge = Edge(source: NodeId, target: NodeId)

  // ---------------------------------------------------------------------------
  // The subgraph
  // ---------------------------------------------------------------------------

  /** `index` numbers its nodes, distinctly, below `n`. */
  ghost predicate Numbers(index: map<NodeId, nat>, n: nat) {
    && (forall v | v in index :: index[v] < n)
    && (forall v, w | v in index && w in index && index[v] == index[w] :: v == w)
  }

  lemma NumberOneMore(index: map<NodeId, nat>, n: nat, v: NodeId)
    requires Numbers(index, n) && v !in index
    ensures Numbers(index[v := n], n + 1)
  {
  }

  lemma HasMember(s: set<NodeId>)
    requires |s| > 0
    ensures exists v :: v in s
  {
  }

  /** Number the nodes in some order. */
  method NumberNodes(nodes: set<NodeId>) returns (index: map<NodeId, nat>)
    ensures index.Keys == nodes && Numbers(index, |nodes|)
  {
    index := map[];
    var rest, k := nodes, 0;
    while rest != {}
      invariant rest <= nodes
      invariant index.Keys == nodes - rest
      invariant k + |rest| == |nodes|
      invariant Numbers(index, k)
      decreases |rest|
    {
      HasMember(rest);
      var v :| v in rest;
      NumberOneMore(index, k, v);
      index := index[v := k];
      rest := rest - {v};
      k := k + 1;
    }
  }

  predicate Kept(e: Edge, index: map<NodeId, nat>) {
    e.source in index && e.target in index
  }

  /** How often the kept edges join positions `i` and `j`, in either direction; an edge from a
      node to itself counts twice. */
  function Links(edges: seq<Edge>, index: map<NodeId, nat>, i: nat, j: nat): nat {
    if edges == [] then 0
    else
      var e := edges[|edges| - 1];
      var before := Links(edges[..|edges| - 1], index, i, j);
      if !Kept(e, index) then before
      else before + (if index[e.source] == i && index[e.target] == j then 1 else 0)
                  + (if index[e.target] == i && index[e.source] == j then 1 else 0)
  }

  lemma {:induction false} LinksAreSymmetric(edges: seq<Edge>, index: map<NodeId, nat>, i: nat, j: nat)
    ensures Links(edges, index, i, j) == Links(edges, index, j, i)
  {
    if edges != [] {
      LinksAreSymmetric(edges[..|edges| - 1], index, i, j);
    }
  }

  method BuildAdjacency(edges: seq<Edge>, index: map<NodeId, nat>, n: nat) returns (out: Graph)
    requires forall v | v in index :: index[v] < n
    ensures |out| == n && GoodGraph(out)
    ensures forall i, j | 0 <= i < n && 0 <= j < n :: multiset(out[i])[j] == Links(edges, index, i, j)
  {
    out := seq(n, _ => []);
    for k := 0 to |edges|
      invariant |out| == n && GoodGraph(out)
      invariant forall i, j | 0 <= i < n && 0 <= j < n :: multiset(out[i])[j] == Links(edges[..k], index, i, j)
    {
      var e := edges[k];
      assert edges[..k + 1][..k] == edges[..k];
      if Kept(e, index) {
        var si, ti := index[e.source], index[e.target];
        out := out[si := out[si] + [ti]];
        out := out[ti := out[ti] + [si]];
      }
    }
    assert edges[..|edges|] == edges;
  }

  // ---------------------------------------------------------------------------
  // The seed
  // ---------------------------------------------------------------------------

  ghost predicate Located(nodes: map<string, seq<NodeId>>, index: map<NodeId, nat>, n: nat) {
    forall p | p in nodes :: nodes[p] != [] && Placed(nodes[p], index, n)
  }

  ghost predicate Placed(ids: seq<NodeId>, index: map<NodeId, nat>, n: nat) {
    forall k | 0 <= k < |ids| :: ids[k] in index && index[ids[k]] < n
  }

  function Positions(ids: seq<NodeId>, index: map<NodeId, nat>): (s: seq<nat>)
    requires forall k | 0 <= k < |ids| :: ids[k] in index
    ensures |s| == |ids| && forall k | 0 <= k < |ids| :: s[k] == index[ids[k]]
  {
    seq(|ids|, k requires 0 <= k < |ids| => index[ids[k]])
  }

  /** The similarity that a candidate puts into the seed. */
  function Weight(c: Candidate, nodes: map<string, seq<NodeId>>): (w: real)
    ensures w >= 0.0
  {
    if c.path in nodes && c.similarity > 0.0 then c.similarity else 0.0
  }

  function TotalWeight(cands: seq<Candidate>, nodes: map<string, seq<NodeId>>): (w: real)
    ensures w >= 0.0
  {
    if cands == [] then 0.0
    else TotalWeight(cands[..|cands| - 1], nodes) + Weight(cands[|cands| - 1], nodes)
  }

  /** Every candidate's similarity spread evenly over its nodes. */
  function RawSeed(cands: seq<Candidate>, nodes: map<string, seq<NodeId>>, index: map<NodeId, nat>, n: nat): (v: Vec)
    requires Located(nodes, index, n)
    ensures |v| == n
  {
    if cands == [] then Zeros(n)
    else
      var before := RawSeed(cands[..|cands| - 1], nodes, index, n);
      var c := cands[|cands| - 1];
      if Weight(c, nodes) == 0.0 then before
      else Scatter(before, Positions(nodes[c.path], index), PerNode(c, nodes))
  }

  function PerNode(c: Candidate, nodes: map<string, seq<NodeId>>): (w: real)
    requires c.path in nodes && nodes[c.path] != []
  {
    Weight(c, nodes) / |nodes[c.path]| as real
  }

  lemma PerNodeFacts(c: Candidate, nodes: map<string, seq<NodeId>>)
    requires c.path in nodes && nodes[c.path] != []
    ensures Times(PerNode(c, nodes), |nodes[c.path]|) == Weight(c, nodes)
    ensures PerNode(c, nodes) >= 0.0
    ensures Weight(c, nodes) > 0.0 ==> PerNode(c, nodes) > 0.0
  {
    TimesIsProduct(PerNode(c, nodes), |nodes[c.path]|);
    QuotientIsPositive(Weight(c, nodes), |nodes[c.path]| as real);
  }

  lemma QuotientIsPositive(x: real, d: real)
    requires x >= 0.0 && d > 0.0
    ensures x / d >= 0.0 && x / d * d == x && (x > 0.0 ==> x / d > 0.0)
  {
  }

  /** The raw seed holds exactly the similarity put into it. */
  lemma {:induction false} RawSeedMass(cands: seq<Candidate>, nodes: map<string, seq<NodeId>>,
                                       index: map<NodeId, nat>, n: nat)
    requires Located(nodes, index, n)
    ensures NonNegative(RawSeed(cands, nodes, index, n))
    ensures Sum(RawSeed(cands, nodes, index, n)) == TotalWeight(cands, nodes)
  {
    if cands == [] {
      SumZeros(Zeros(n));
    } else {
      var c, less := cands[|cands| - 1], cands[..|cands| - 1];
      RawSeedMass(less, nodes, index, n);
      if Weight(c, nodes) != 0.0 {
        PerNodeFacts(c, nodes);
        ScatterSum(RawSeed(less, nodes, index, n), Positions(nodes[c.path], index), PerNode(c, nodes));
        ScatterGrows(RawSeed(less, nodes, index, n), Positions(nodes[c.path], index), PerNode(c, nodes));
      }
    }
  }

  /** Every node of a candidate with positive similarity gets a positive seed. */
  lemma {:induction false} RawSeedReaches(cands: seq<Candidate>, nodes: map<string, seq<NodeId>>,
                                          index: map<NodeId, nat>, n: nat, k: nat, m: nat)
    requires Located(nodes, index, n)
    requires k < |cands| && Weight(cands[k], nodes) > 0.0 && m < |nodes[cands[k].path]|
    ensures RawSeed(cands, nodes, index, n)[index[nodes[cands[k].path][m]]] > 0.0
  {
    var c, less := cands[|cands| - 1], cands[..|cands| - 1];
    var before := RawSeed(less, nodes, index, n);
    RawSeedMass(less, nodes, index, n);
    if Weight(c, nodes) != 0.0 {
      PerNodeFacts(c, nodes);
      ScatterGrows(before, Positions(nodes[c.path], index), PerNode(c, nodes));
    }
    if k < |cands| - 1 {
      RawSeedReaches(less, nodes, index, n, k, m);
    } else {
      ScatterHits(before, Positions(nodes[c.path], index), PerNode(c, nodes), m);
    }
  }

  lemma {:induction false} ScatterHits(v: Vec, targets: seq<nat>, c: real, m: nat)
    requires Below(targets, |v|) && m < |targets| && c >= 0.0
    ensures Scatter(v, targets, c)[targets[m]] >= v[targets[m]] + c
  {
    var less := targets[..|targets| - 1];
    if m < |less| {
      ScatterHits(v, less, c, m);
    } else {
      ScatterGrows(v, less, c);
    }
  }

  lemma {:induction false} TotalWeightIsPositive(cands: seq<Candidate>, nodes: map<string, seq<NodeId>>)
    ensures TotalWeight(cands, nodes) > 0.0 <==> exists k | 0 <= k < |cands| :: Weight(cands[k], nodes) > 0.0
  {
    if cands != [] {
      var last := |cands| - 1;
      TotalWeightIsPositive(cands[..last], nodes);
      if Weight(cands[last], nodes) <= 0.0 && TotalWeight(cands[..last], nodes) > 0.0 {
        var k :| 0 <= k < last && Weight(cands[..last][k], nodes) > 0.0;
        assert Weight(cands[k], nodes) > 0.0;
      }
      if k :| 0 <= k < last && Weight(cands[k], nodes) > 0.0 {
        assert Weight(cands[..last][k], nodes) > 0.0;
      }
    }
  }

  function Divided(v: Vec, d: real): (r: Vec)
    requires d > 0.0
    ensures |r| == |v|
  {
    seq(|v|, i requires 0 <= i < |v| => v[i] / d)
  }

  lemma {:induction false} SumDivided(v: Vec, d: real)
    requires d > 0.0
    ensures Sum(Divided(v, d)) == Sum(v) / d
  {
    if v != [] {
      var n := |v| - 1;
      SumDivided(v[..n], d);
      assert Divided(v, d)[..n] == Divided(v[..n], d);
      QuotientPlus(Sum(v[..n]), v[n], d);
    }
  }

  lemma QuotientPlus(x: real, y: real, d: real)
    requires d > 0.0
    ensures (x + y) / d == x / d + y / d
  {
  }

  lemma DividedIsGood(v: Vec, d: real)
    requires NonNegative(v) && Sum(v) == d > 0.0
    ensures GoodSeed(Divided(v, d))
  {
    SumDivided(v, d);
    forall i | 0 <= i < |v| ensures Divided(v, d)[i] >= 0.0 {
      QuotientIsPositive(v[i], d);
    }
    SelfQuotient(d);
  }

  lemma SelfQuotient(d: real)
    requires d > 0.0
    ensures d / d == 1.0
  {
  }

  /** Add `c` at every position listed. */
  method ScatterInto(a: array<real>, targets: seq<nat>, c: real)
    requires Below(targets, a.Length)
    modifies a
    ensures a[..] == Scatter(old(a[..]), targets, c)
  {
    for k := 0 to |targets|
      invariant a[..] == Scatter(old(a[..]), targets[..k], c)
    {
      assert targets[..k + 1][..k] == targets[..k];
      a[targets[k]] := a[targets[k]] + c;
    }
    assert targets[..|targets|] == targets;
  }

  /** One candidate's share, added node by node; `total` gains as much as the seed does. */
  method SpreadOver(seed: array<real>, total: real, ids: seq<NodeId>, index: map<NodeId, nat>, perNode: real)
    returns (total': real)
    requires Placed(ids, index, seed.Length)
    modifies seed
    ensures seed[..] == Scatter(old(seed[..]), Positions(ids, index), perNode)
    ensures total' == total + Times(perNode, |ids|)
  {
    total' := total;
    ghost var targets := Positions(ids, index);
    for m := 0 to |ids|
      invariant seed[..] == Scatter(old(seed[..]), targets[..m], perNode)
      invariant total' == total + Times(perNode, m)
    {
      assert targets[..m + 1][..m] == targets[..m];
      var i := index[ids[m]];
      seed[i] := seed[i] + perNode;
      total' := total' + perNode;
    }
    assert targets[..|ids|] == targets;
  }

  method DivideBy(seed: array<real>, total: real)
    requires total > 0.0
    modifies seed
    ensures seed[..] == Divided(old(seed[..]), total)
  {
    for i := 0 to seed.Length
      invariant forall j | 0 <= j < i :: seed[j] == old(seed[j]) / total
      invariant forall j | i <= j < seed.Length :: seed[j] == old(seed[j])
    {
      seed[i] := seed[i] / total;
    }
    assert seed[..] == Divided(old(seed[..]), total);
  }

  method BuildSeed(cands: seq<Candidate>, nodes: map<string, seq<NodeId>>, index: map<NodeId, nat>, n: nat)
    returns (seed: array<real>, total: real)
    requires Located(nodes, index, n)
    ensures fresh(seed) && seed.Length == n && total == TotalWeight(cands, nodes)
    ensures total > 0.0 ==> seed[..] == Divided(RawSeed(cands, nodes, index, n), total)
  {
    seed := new real[n](_ => 0.0);
    total := 0.0;
    assert seed[..] == Zeros(n);
    for k := 0 to |cands|
      invariant seed[..] == RawSeed(cands[..k], nodes, index, n)
      invariant total == TotalWeight(cands[..k], nodes)
    {
      var c := cands[k];
      assert cands[..k + 1][..k] == cands[..k];
      var positive := if c.similarity > 0.0 then c.similarity else 0.0;
      if c.path in nodes && positive != 0.0 {
        PerNodeFacts(c, nodes);
        total := SpreadOver(seed, total, nodes[c.path], index, positive / |nodes[c.path]| as real);
      }
    }
    assert cands[..|cands|] == cands;
    if total > 0.0 {
      DivideBy(seed, total);
    }
  }

  // ---------------------------------------------------------------------------
  // Power iteration in place
  // ---------------------------------------------------------------------------

  method WalkOnce(out: Graph, r: array<real>) returns (w: array<real>)
    requires GoodGraph(out) && r.Length == |out|
    ensures fresh(w) && w[..] == Walk(out, r[..])
  {
    w := new real[r.Length](_ => 0.0);
    assert w[..] == Zeros(|out|);
    for i := 0 to r.Length
      invariant w[..] == WalkUpTo(out, r[..], i)
    {
      if r[i] == 0.0 {
        NothingToShare(out, r[..], i);
      } else {
        ScatterInto(w, out[i], r[i] / Degree(out, i));
      }
    }
  }

  /** Skipping a node without mass changes nothing. */
  lemma NothingToShare(out: Graph, r: Vec, i: nat)
    requires GoodGraph(out) && |r| == |out| && i < |out| && r[i] == 0.0
    ensures WalkUpTo(out, r, i + 1) == WalkUpTo(out, r, i)
  {
    ScatterNothing(WalkUpTo(out, r, i), out[i]);
  }

  lemma MixEntry(beta: real, w: Vec, seed: Vec, i: nat)
    requires |w| == |seed| && i < |w|
    ensures Mix(beta, w, seed)[i] == beta * w[i] + (1.0 - beta) * seed[i]
  {
  }

  method MixInto(r: array<real>, w: array<real>, seed: array<real>, beta: real)
    requires r.Length == w.Length == seed.Length && r != w && r != seed
    modifies r
    ensures r[..] == Mix(beta, w[..], seed[..])
  {
    ghost var mixed := Mix(beta, w[..], seed[..]);
    for i := 0 to r.Length
      invariant r[..i] == mixed[..i]
    {
      MixEntry(beta, w[..], seed[..], i);
      assert w[..][i] == w[i] && seed[..][i] == seed[i];
      r[i] := beta * w[i] + (1.0 - beta) * seed[i];
      assert r[i] == mixed[i];
    }
  }

  method PowerIterate(out: Graph, seed: array<real>, beta: real, iterations: nat) returns (r: array<real>)
    requires GoodGraph(out) && seed.Length == |out|
    ensures fresh(r) && r[..] == Iterate(beta, out, seed[..], iterations)
  {
    r := new real[seed.Length](i requires 0 <= i < seed.Length reads seed => seed[i]);
    ghost var start := seed[..];
    assert r[..] == start;
    for k := 0 to iterations
      invariant fresh(r) && r.Length == seed.Length && seed[..] == start
      invariant r[..] == Iterate(beta, out, start, k)
    {
      var newR := WalkOnce(out, r);
      MixInto(r, newR, seed, beta);
      StepExtendsIterate(beta, out, start, k);
    }
  }

  lemma StepExtendsIterate(beta: real, out: Graph, seed: Vec, k: nat)
    requires GoodGraph(out) && |seed| == |out|
    ensures Iterate(beta, out, seed, k + 1) == Mix(beta, Walk(out, Iterate(beta, out, seed, k)), seed)
  {
  }

  // ---------------------------------------------------------------------------
  // Scores of candidate paths
  // ---------------------------------------------------------------------------

  function PickedSum(r: Vec, targets: seq<nat>): real
    requires Below(targets, |r|)
  {
    if targets == [] then 0.0
    else PickedSum(r, targets[..|targets| - 1]) + r[targets[|targets| - 1]]
  }

  function Mean(r: Vec, targets: seq<nat>): real
    requires Below(targets, |r|) && targets != []
  {
    PickedSum(r, targets) / |targets| as real
  }

  lemma {:induction false} PickedSumBounds(r: Vec, targets: seq<nat>, m: nat)
    requires NonNegative(r) && Below(targets, |r|) && m < |targets|
    ensures PickedSum(r, targets) >= r[targets[m]]
  {
    var less := targets[..|targets| - 1];
    if less != [] {
      PickedSumBounds(r, less, if m < |less| then m else 0);
    }
  }

  lemma MeanFacts(r: Vec, targets: seq<nat>)
    requires NonNegative(r) && Below(targets, |r|) && targets != []
    ensures Mean(r, targets) >= 0.0
    ensures r[targets[0]] > 0.0 ==> Mean(r, targets) > 0.0
  {
    PickedSumBounds(r, targets, 0);
    QuotientIsPositive(PickedSum(r, targets), |targets| as real);
  }

  lemma {:induction false} PickedSumBetween(r: Vec, targets: seq<nat>, lo: real, hi: real)
    requires Below(targets, |r|) && forall m | 0 <= m < |targets| :: lo <= r[targets[m]] <= hi
    ensures Times(lo, |targets|) <= PickedSum(r, targets) <= Times(hi, |targets|)
  {
    if targets != [] { PickedSumBetween(r, targets[..|targets| - 1], lo, hi); }
  }

  lemma ProductOrder(a: real, b: real, k: real)
    requires k > 0.0
    ensures a * k <= b * k <==> a <= b
  {
    var d := b - a;
    assert b * k - a * k == d * k;
    if d >= 0.0 {
      assert d * k >= 0.0;
    } else {
      assert d * k < 0.0;
    }
  }

  lemma QuotientBetween(x: real, k: real, lo: real, hi: real)
    requires k > 0.0 && lo * k <= x <= hi * k
    ensures lo <= x / k <= hi
  {
    var q := x / k;
    assert q * k == x;
    ProductOrder(lo, q, k);
    ProductOrder(q, hi, k);
  }

  /** A path's score lies between the least and the greatest rank of its nodes. */
  lemma MeanIsBetween(r: Vec, targets: seq<nat>, lo: real, hi: real)
    requires Below(targets, |r|) && targets != [] && forall m | 0 <= m < |targets| :: lo <= r[targets[m]] <= hi
    ensures lo <= Mean(r, targets) <= hi
  {
    PickedSumBetween(r, targets, lo, hi);
    TimesIsProduct(lo, |targets|);
    TimesIsProduct(hi, |targets|);
    QuotientBetween(PickedSum(r, targets), |targets| as real, lo, hi);
  }

  function RawScores(nodes: map<string, seq<NodeId>>, index: map<NodeId, nat>, r: Vec): (s: map<string, real>)
    requires Located(nodes, index, |r|)
    ensures s.Keys == nodes.Keys
  {
    map p | p in nodes :: Mean(r, Positions(nodes[p], index))
  }

  ghost predicate IsMaximum(s: map<string, real>, best: real) {
    && (forall p | p in s :: s[p] <= best)
    && exists p | p in s :: s[p] == best
  }

  ghost predicate IsNormalised(s: map<string, real>, raw: map<string, real>) {
    && s.Keys == raw.Keys
    && ((forall p | p in raw :: raw[p] <= 0.0) ==> s == raw)
    && forall best | best > 0.0 && IsMaximum(raw, best) :: forall p | p in raw :: s[p] == raw[p] / best
  }

  function PathsOf(cands: seq<Candidate>): set<string> {
    set c | c in cands :: c.path
  }

  method NodeMean(r: array<real>, ids: seq<NodeId>, index: map<NodeId, nat>) returns (mean: real)
    requires ids != [] && Placed(ids, index, r.Length)
    ensures mean == Mean(r[..], Positions(ids, index))
  {
    var sum := 0.0;
    ghost var targets := Positions(ids, index);
    for m := 0 to |ids|
      invariant sum == PickedSum(r[..], targets[..m])
    {
      assert targets[..m + 1][..m] == targets[..m];
      sum := sum + r[index[ids[m]]];
    }
    assert targets[..|ids|] == targets;
    mean := sum / |ids| as real;
  }

  /** `best` is 0 or the largest score, whichever is larger. */
  ghost predicate IsBest(scores: map<string, real>, best: real) {
    && best >= 0.0 && (forall p | p in scores :: scores[p] <= best)
    && (best > 0.0 ==> IsMaximum(scores, best))
  }

  lemma BestAfterAdding(scores: map<string, real>, best: real, path: string, score: real)
    requires IsBest(scores, best) && (path in scores ==> scores[path] == score)
    ensures IsBest(scores[path := score], if score > best then score else best)
  {
    var after := scores[path := score];
    assert after[path] == score;
    if score <= best && best > 0.0 {
      var p :| p in scores && scores[p] == best;
      assert after[p] == best;
    }
  }

  method PathScores(cands: seq<Candidate>, nodes: map<string, seq<NodeId>>, index: map<NodeId, nat>, r: array<real>)
    returns (scores: map<string, real>, best: real)
    requires Located(nodes, index, r.Length) && nodes.Keys <= PathsOf(cands)
    ensures scores == RawScores(nodes, index, r[..])
    ensures IsBest(scores, best)
  {
    scores, best := map[], 0.0;
    ghost var raw := RawScores(nodes, index, r[..]);
    for k := 0 to |cands|
      invariant scores.Keys == nodes.Keys * PathsOf(cands[..k])
      invariant forall p | p in scores :: scores[p] == raw[p]
      invariant IsBest(scores, best)
    {
      var path := cands[k].path;
      assert cands[..k + 1] == cands[..k] + [cands[k]];
      if path in nodes {
        var score := NodeMean(r, nodes[path], index);
        BestAfterAdding(scores, best, path, score);
        scores := scores[path := score];
        if score > best {
          best := score;
        }
      }
    }
    assert cands[..|cands|] == cands;
  }

  method Normalise(raw: map<string, real>, best: real) returns (scores: map<string, real>)
    requires IsBest(raw, best)
    ensures IsNormalised(scores, raw)
  {
    scores := raw;
    if best > 0.0 {
      var rest := raw.Keys;
      while rest != {}
        invariant rest <= raw.Keys == scores.Keys
        invariant forall p | p in raw :: scores[p] == if p in rest then raw[p] else raw[p] / best
        decreases |rest|
      {
        var p: string :| p in rest;
        scores := scores[p := scores[p] / best];
        rest := rest - {p};
      }
    }
  }

  /** Normalised scores lie between 0 and 1, and the best is exactly 1 unless every score is 0. */
  lemma NormalisedRange(s: map<string, real>, raw: map<string, real>, best: real)
    requires IsNormalised(s, raw) && IsMaximum(raw, best) && forall p | p in raw :: raw[p] >= 0.0
    ensures forall p | p in s :: 0.0 <= s[p] <= 1.0
    ensures best > 0.0 ==> exists p | p in s :: s[p] == 1.0
  {
    if best > 0.0 {
      forall p | p in s ensures 0.0 <= s[p] <= 1.0 {
        Fraction(raw[p], best);
      }
      var p :| p in raw && raw[p] == best;
      SelfQuotient(best);
      assert s[p] == 1.0;
    }
  }

  lemma Fraction(x: real, d: real)
    requires 0.0 <= x <= d && d > 0.0
    ensures 0.0 <= x / d <= 1.0
  {
  }

  // ---------------------------------------------------------------------------
  // The whole computation
  // ---------------------------------------------------------------------------

  function NodesOf(nodes: map<string, seq<NodeId>>): set<NodeId> {
    set p, v | p in nodes && v in nodes[p] :: v
  }

  function Sources(edges: seq<Edge>): set<NodeId> {
    set e | e in edges :: e.source
  }

  function Targets(edges: seq<Edge>): set<NodeId> {
    set e | e in edges :: e.target
  }

  function From(table: seq<Edge>, ids: set<NodeId>): (s: seq<Edge>)
    ensures Sources(s) <= ids
  {
    if table == [] then []
    else
      var last := table[|table| - 1];
      From(table[..|table| - 1], ids) + if last.source in ids then [last] else []
  }

  function Into(table: seq<Edge>, ids: set<NodeId>): (s: seq<Edge>)
    ensures Targets(s) <= ids
  {
    if table == [] then []
    else
      var last := table[|table| - 1];
      Into(table[..|table| - 1], ids) + if last.target in ids then [last] else []
  }

  function Inside(edges: seq<Edge>, ids: set<NodeId>): (s: seq<Edge>)
    ensures Sources(s) <= ids && Targets(s) <= ids
  {
    if edges == [] then []
    else
      var last := edges[|edges| - 1];
      Inside(edges[..|edges| - 1], ids) + if last.source in ids && last.target in ids then [last] else []
  }

  /** The three filters keep each edge as often as it is listed, or drop it. */
  lemma {:induction false} FromIsExact(table: seq<Edge>, ids: set<NodeId>, e: Edge)
    ensures multiset(From(table, ids))[e] == if e.source in ids then multiset(table)[e] else 0
  {
    if table != [] {
      var less, last := table[..|table| - 1], table[|table| - 1];
      FromIsExact(less, ids, e);
      assert table == less + [last];
    }
  }

  lemma {:induction false} IntoIsExact(table: seq<Edge>, ids: set<NodeId>, e: Edge)
    ensures multiset(Into(table, ids))[e] == if e.target in ids then multiset(table)[e] else 0
  {
    if table != [] {
      var less, last := table[..|table| - 1], table[|table| - 1];
      IntoIsExact(less, ids, e);
      assert table == less + [last];
    }
  }

  lemma {:induction false} InsideIsExact(table: seq<Edge>, ids: set<NodeId>, e: Edge)
    ensures multiset(Inside(table, ids))[e] == if e.source in ids && e.target in ids then multiset(table)[e] else 0
  {
    if table != [] {
      var less, last := table[..|table| - 1], table[|table| - 1];
      InsideIsExact(less, ids, e);
      assert table == less + [last];
    }
  }

  /** How often the rows read for the candidates list the edge from `a` to `b`: once for each end that is a node of
      theirs, times its rows in the table. */
  function Touching(table: seq<Edge>, seedIds: set<NodeId>, a: NodeId, b: NodeId): nat {
    multiset(table)[Edge(a, b)] * ((if a in seedIds then 1 else 0) + if b in seedIds then 1 else 0)
  }

  /** The candidates' nodes and every node that an edge joins to one of them. */
  function Wide(table: seq<Edge>, seedIds: set<NodeId>): set<NodeId> {
    seedIds + (set e | e in table && e.source in seedIds :: e.target)
    + (set e | e in table && e.target in seedIds :: e.source)
  }

  function SubNodes(table: seq<Edge>, seedIds: set<NodeId>, maxNodes: nat): set<NodeId> {
    if |Wide(table, seedIds)| <= maxNodes then Wide(table, seedIds) else seedIds
  }

  lemma FiltersReach(table: seq<Edge>, ids: set<NodeId>)
    ensures Targets(From(table, ids)) == set e | e in table && e.source in ids :: e.target
    ensures Sources(Into(table, ids)) == set e | e in table && e.target in ids :: e.source
  {
    forall e ensures e in From(table, ids) <==> e in table && e.source in ids {
      FromIsExact(table, ids, e);
      InMultiset(table, e);
      InMultiset(From(table, ids), e);
    }
    forall e ensures e in Into(table, ids) <==> e in table && e.target in ids {
      IntoIsExact(table, ids, e);
      InMultiset(table, e);
      InMultiset(Into(table, ids), e);
    }
  }

  lemma InMultiset(edges: seq<Edge>, e: Edge)
    ensures e in edges <==> multiset(edges)[e] > 0
  {
    assert e in edges <==> e in multiset(edges);
  }

  /** The rows that the subgraph is built from join two of its nodes exactly as the table does. */
  lemma PairsCount(table: seq<Edge>, seedIds: set<NodeId>, a: NodeId, b: NodeId)
    ensures var touching := From(table, seedIds) + Into(table, seedIds);
            && multiset(touching)[Edge(a, b)] == Touching(table, seedIds, a, b)
            && (a in seedIds && b in seedIds ==>
                  multiset(Inside(touching, seedIds))[Edge(a, b)] == Touching(table, seedIds, a, b))
  {
    FromIsExact(table, seedIds, Edge(a, b));
    IntoIsExact(table, seedIds, Edge(a, b));
    InsideIsExact(From(table, seedIds) + Into(table, seedIds), seedIds, Edge(a, b));
  }

  lemma {:induction false} LinksCount(edges: seq<Edge>, index: map<NodeId, nat>, n: nat, a: NodeId, b: NodeId)
    requires Numbers(index, n) && a in index && b in index
    ensures Links(edges, index, index[a], index[b]) == multiset(edges)[Edge(a, b)] + multiset(edges)[Edge(b, a)]
  {
    if edges != [] {
      var less, last := edges[..|edges| - 1], edges[|edges| - 1];
      LinksCount(less, index, n, a, b);
      assert edges == less + [last];
      if Kept(last, index) {
        assert index[last.source] == index[a] && index[last.target] == index[b] <==> last == Edge(a, b);
        assert index[last.target] == index[a] && index[last.source] == index[b] <==> last == Edge(b, a);
      }
    }
  }

  /** `out` is the neighbourhood of the candidates' nodes in the table, both ways, under the numbers of `index`. */
  ghost predicate IsSubgraph(out: Graph, index: map<NodeId, nat>, table: seq<Edge>, seedIds: set<NodeId>,
                             maxNodes: nat) {
    && index.Keys == SubNodes(table, seedIds, maxNodes) && Numbers(index, |out|) && |index| == |out| && GoodGraph(out)
    && forall a, b | a in index && b in index ::
         multiset(out[index[a]])[index[b]] == Touching(table, seedIds, a, b) + Touching(table, seedIds, b, a)
  }

  /** The candidates' nodes and their neighbours, or only the candidates' nodes when that would
      exceed the cap. */
  method Expand(table: seq<Edge>, seedIds: set<NodeId>, maxNodes: nat)
    returns (subNodes: set<NodeId>, pairs: seq<Edge>)
    ensures seedIds <= subNodes && Sources(pairs) <= subNodes && Targets(pairs) <= subNodes
    ensures var touching := From(table, seedIds) + Into(table, seedIds);
            var wide := seedIds + Targets(From(table, seedIds)) + Sources(Into(table, seedIds));
            if |wide| <= maxNodes then subNodes == wide && pairs == touching
            else subNodes == seedIds && pairs == Inside(touching, seedIds)
    ensures subNodes == SubNodes(table, seedIds, maxNodes)
    ensures forall a, b | a in subNodes && b in subNodes ::
              multiset(pairs)[Edge(a, b)] == Touching(table, seedIds, a, b)
  {
    FiltersReach(table, seedIds);
    var outRows, inRows := From(table, seedIds), Into(table, seedIds);
    pairs := outRows + inRows;
    subNodes := seedIds + Targets(outRows) + Sources(inRows);
    if |subNodes| > maxNodes {
      subNodes := seedIds;
      pairs := Inside(pairs, subNodes);
    } else {
      forall e | e in pairs ensures e.source in subNodes && e.target in subNodes {
        if e in outRows {
          assert e.source in Sources(outRows) && e.target in Targets(outRows);
        } else {
          assert e.source in Sources(inRows) && e.target in Targets(inRows);
        }
      }
    }
    forall a, b | a in subNodes && b in subNodes
      ensures multiset(pairs)[Edge(a, b)] == Touching(table, seedIds, a, b)
    {
      PairsCount(table, seedIds, a, b);
    }
  }

  /** The candidate paths that have nodes in the graph. */
  ghost function Known(cands: seq<Candidate>, lookup: string -> seq<NodeId>): set<string> {
    set c | c in cands && lookup(c.path) != [] :: c.path
  }

  ghost predicate Looked(nodes: map<string, seq<NodeId>>, cands: seq<Candidate>, lookup: string -> seq<NodeId>) {
    nodes.Keys == Known(cands, lookup) && forall p | p in nodes :: nodes[p] == lookup(p)
  }

  /** The nodes of each such path. */
  ghost function Found(cands: seq<Candidate>, lookup: string -> seq<NodeId>): map<string, seq<NodeId>> {
    map p | p in Known(cands, lookup) :: lookup(p)
  }

  method LookUp(cands: seq<Candidate>, lookup: string -> seq<NodeId>) returns (nodes: map<string, seq<NodeId>>)
    ensures Looked(nodes, cands, lookup) && nodes == Found(cands, lookup)
  {
    nodes := map[];
    for k := 0 to |cands|
      invariant Looked(nodes, cands[..k], lookup)
    {
      assert cands[..k + 1] == cands[..k] + [cands[k]];
      var rows := lookup(cands[k].path);
      if rows != [] {
        nodes := nodes[cands[k].path := rows];
      }
    }
    assert cands[..|cands|] == cands;
  }

  /** Some candidate has both a positive similarity and a node. */
  ghost predicate HasSeed(cands: seq<Candidate>, lookup: string -> seq<NodeId>) {
    exists k | 0 <= k < |cands| :: cands[k].similarity > 0.0 && lookup(cands[k].path) != []
  }

  lemma SeedExists(cands: seq<Candidate>, lookup: string -> seq<NodeId>, nodes: map<string, seq<NodeId>>)
    requires Looked(nodes, cands, lookup)
    ensures TotalWeight(cands, nodes) > 0.0 <==> HasSeed(cands, lookup)
  {
    TotalWeightIsPositive(cands, nodes);
    forall k | 0 <= k < |cands|
      ensures Weight(cands[k], nodes) > 0.0 <==> cands[k].similarity > 0.0 && lookup(cands[k].path) != []
    {
      assert cands[k] in cands;
    }
  }

  lemma FloorIsPositive(rest: real, total: real, raw: Vec, r: Vec, i: nat)
    requires rest > 0.0 && total > 0.0 && i < |raw| && raw[i] > 0.0
    requires Bounded(rest, Scaled(rest, Divided(raw, total)), r)
    ensures r[i] > 0.0
  {
    QuotientIsPositive(raw[i], total);
    PositiveProduct(rest, raw[i] / total);
    assert Scaled(rest, Divided(raw, total))[i] == rest * (raw[i] / total);
  }

  /** A candidate with positive similarity scores above 0. */
  lemma SeededPathScores(cands: seq<Candidate>, nodes: map<string, seq<NodeId>>, index: map<NodeId, nat>,
                         rest: real, total: real, r: Vec, k: nat)
    requires Located(nodes, index, |r|) && rest > 0.0 && total > 0.0
    requires k < |cands| && Weight(cands[k], nodes) > 0.0
    requires Bounded(rest, Scaled(rest, Divided(RawSeed(cands, nodes, index, |r|), total)), r)
    ensures RawScores(nodes, index, r)[cands[k].path] > 0.0
  {
    var path := cands[k].path;
    RawSeedReaches(cands, nodes, index, |r|, k, 0);
    FloorIsPositive(rest, total, RawSeed(cands, nodes, index, |r|), r, index[nodes[path][0]]);
    MeanFacts(r, Positions(nodes[path], index));
  }

  lemma PositiveProduct(x: real, y: real)
    requires x > 0.0 && y > 0.0
    ensures x * y > 0.0
  {
  }

  lemma RawScoresAreNonNegative(nodes: map<string, seq<NodeId>>, index: map<NodeId, nat>, r: Vec)
    requires Located(nodes, index, |r|) && NonNegative(r)
    ensures forall p | p in nodes :: RawScores(nodes, index, r)[p] >= 0.0
  {
    forall p | p in nodes ensures RawScores(nodes, index, r)[p] >= 0.0 {
      MeanFacts(r, Positions(nodes[p], index));
    }
  }

  lemma LookedIsLocated(nodes: map<string, seq<NodeId>>, cands: seq<Candidate>, lookup: string -> seq<NodeId>,
                        index: map<NodeId, nat>, n: nat)
    requires Looked(nodes, cands, lookup) && NodesOf(nodes) <= index.Keys && Numbers(index, n)
    ensures Located(nodes, index, n) && nodes.Keys <= PathsOf(cands)
  {
    forall p | p in nodes ensures nodes[p] != [] && Placed(nodes[p], index, n) {
      forall k | 0 <= k < |nodes[p]| ensures nodes[p][k] in index {
        assert nodes[p][k] in nodes[p];
        assert nodes[p][k] in NodesOf(nodes);
      }
    }
  }

  method RankPaths(cands: seq<Candidate>, nodes: map<string, seq<NodeId>>, index: map<NodeId, nat>, r: array<real>)
    returns (scores: map<string, real>)
    requires Located(nodes, index, r.Length) && nodes.Keys <= PathsOf(cands) && NonNegative(r[..])
    ensures IsNormalised(scores, RawScores(nodes, index, r[..]))
    ensures forall p | p in scores :: 0.0 <= scores[p] <= 1.0
    ensures (exists p | p in nodes :: RawScores(nodes, index, r[..])[p] > 0.0)
            ==> exists p | p in scores :: scores[p] == 1.0
  {
    var raw, best := PathScores(cands, nodes, index, r);
    RawScoresAreNonNegative(nodes, index, r[..]);
    scores := Normalise(raw, best);
    if best > 0.0 {
      NormalisedRange(scores, raw, best);
    }
  }

  /** The scores are the normalised means of the iterate over the subgraph that the table has around the nodes. */
  ghost predicate Explains(out: Graph, index: map<NodeId, nat>, scores: map<string, real>, cands: seq<Candidate>,
                           nodes: map<string, seq<NodeId>>, table: seq<Edge>, maxNodes: nat, beta: real,
                           iterations: nat) {
    && GoodGraph(out) && Located(nodes, index, |out|) && TotalWeight(cands, nodes) > 0.0
    && IsSubgraph(out, index, table, NodesOf(nodes), maxNodes)
    && IsNormalised(scores, Ranks(cands, nodes, out, index, beta, iterations))
  }

  /** Nothing is scored unless two paths have nodes and some similarity is positive; otherwise every
      path with nodes scores between 0 and 1, and below full damping one of them scores exactly 1. */
  method Score(cands: seq<Candidate>, table: seq<Edge>, lookup: string -> seq<NodeId>,
               maxNodes: nat, beta: real, iterations: nat)
    returns (scores: map<string, real>)
    requires 0.0 <= beta <= 1.0
    ensures scores == map[] <==> |Known(cands, lookup)| < 2 || !HasSeed(cands, lookup)
    ensures scores != map[] ==> scores.Keys == Known(cands, lookup)
    ensures forall p | p in scores :: 0.0 <= scores[p] <= 1.0
    ensures scores != map[] && beta < 1.0 ==> exists p | p in scores :: scores[p] == 1.0
    ensures scores != map[] ==> exists out, index ::
              Explains(out, index, scores, cands, Found(cands, lookup), table, maxNodes, beta, iterations)
  {
    hide Ranks, IsSubgraph, GoodGraph, Found, Located;
    var nodes := LookUp(cands, lookup);
    assert |nodes| == |nodes.Keys|;
    SeedExists(cands, lookup, nodes);
    if |nodes| < 2 {
      return map[];
    }
    var out, index;
    scores, out, index := ScoreLocated(cands, nodes, table, lookup, maxNodes, beta, iterations);
    assert TotalWeight(cands, nodes) > 0.0 ==>
      Explains(out, index, scores, cands, Found(cands, lookup), table, maxNodes, beta, iterations);
  }

  method BuildSubgraph(ghost cands: seq<Candidate>, nodes: map<string, seq<NodeId>>, table: seq<Edge>,
                       ghost lookup: string -> seq<NodeId>, maxNodes: nat)
    returns (out: Graph, index: map<NodeId, nat>, pairs: seq<Edge>)
    requires Looked(nodes, cands, lookup)
    ensures GoodGraph(out) && Numbers(index, |out|) && |index| == |out|
    ensures IsSubgraph(out, index, table, NodesOf(nodes), maxNodes)
    ensures |out| <= maxNodes || index.Keys == NodesOf(nodes)
    ensures forall i, j | 0 <= i < |out| && 0 <= j < |out| :: multiset(out[i])[j] == Links(pairs, index, i, j)
    ensures Located(nodes, index, |out|) && nodes.Keys <= PathsOf(cands)
  {
    var subNodes;
    subNodes, pairs := Expand(table, NodesOf(nodes), maxNodes);
    index := NumberNodes(subNodes);
    assert |index| == |index.Keys|;
    LookedIsLocated(nodes, cands, lookup, index, |subNodes|);
    out := BuildAdjacency(pairs, index, |subNodes|);
    forall a, b | a in index && b in index
      ensures multiset(out[index[a]])[index[b]] ==
              Touching(table, NodesOf(nodes), a, b) + Touching(table, NodesOf(nodes), b, a)
    {
      LinksCount(pairs, index, |out|, a, b);
    }
  }

  /** The scores before normalisation. */
  ghost function Ranks(cands: seq<Candidate>, nodes: map<string, seq<NodeId>>, out: Graph,
                       index: map<NodeId, nat>, beta: real, iterations: nat): (s: map<string, real>)
    requires GoodGraph(out) && Located(nodes, index, |out|) && TotalWeight(cands, nodes) > 0.0
    ensures s.Keys == nodes.Keys
  {
    var seed := Divided(RawSeed(cands, nodes, index, |out|), TotalWeight(cands, nodes));
    RawScores(nodes, index, Iterate(beta, out, seed, iterations))
  }

  method ScoreLocated(cands: seq<Candidate>, nodes: map<string, seq<NodeId>>, table: seq<Edge>,
                      ghost lookup: string -> seq<NodeId>, maxNodes: nat, beta: real, iterations: nat)
    returns (scores: map<string, real>, out: Graph, index: map<NodeId, nat>)
    requires 0.0 <= beta <= 1.0 && Looked(nodes, cands, lookup)
    ensures GoodGraph(out) && Numbers(index, |out|) && Located(nodes, index, |out|)
    ensures IsSubgraph(out, index, table, NodesOf(nodes), maxNodes)
    ensures |out| <= maxNodes || index.Keys == NodesOf(nodes)
    ensures TotalWeight(cands, nodes) <= 0.0 ==> scores == map[]
    ensures TotalWeight(cands, nodes) > 0.0
            ==> IsNormalised(scores, Ranks(cands, nodes, out, index, beta, iterations))
    ensures forall p | p in scores :: 0.0 <= scores[p] <= 1.0
    ensures TotalWeight(cands, nodes) > 0.0 && beta < 1.0 ==> exists p | p in scores :: scores[p] == 1.0
  {
    hide IsSubgraph, RawSeed, RawScores, Iterate, IsNormalised, Numbers, GoodGraph, Located;
    var pairs;
    out, index, pairs := BuildSubgraph(cands, nodes, table, lookup, maxNodes);
    var n := |out|;
    var seed, total := BuildSeed(cands, nodes, index, n);
    if total <= 0.0 {
      scores := map[];
      return;
    }
    RawSeedMass(cands, nodes, index, n);
    DividedIsGood(RawSeed(cands, nodes, index, n), total);
    var r := PowerIterate(out, seed, beta, iterations);
    IterateBounds(beta, out, seed[..], iterations);
    if beta < 1.0 {
      SomePathScores(cands, nodes, index, 1.0 - beta, total, r[..]);
    }
    scores := RankPaths(cands, nodes, index, r);
  }

  lemma SomePathScores(cands: seq<Candidate>, nodes: map<string, seq<NodeId>>, index: map<NodeId, nat>,
                       rest: real, total: real, r: Vec)
    requires Located(nodes, index, |r|) && rest > 0.0 && total == TotalWeight(cands, nodes) > 0.0
    requires Bounded(rest, Scaled(rest, Divided(RawSeed(cands, nodes, index, |r|), total)), r)
    ensures exists p | p in nodes :: RawScores(nodes, index, r)[p] > 0.0
  {
    TotalWeightIsPositive(cands, nodes);
    var k :| 0 <= k < |cands| && Weight(cands[k], nodes) > 0.0;
    SeededPathScores(cands, nodes, index, rest, total, r, k);
  }
}
