/** The scores do not depend on the order in which sets are enumerated: any two numberings of the
    subgraph's nodes give the same ranks. */
module PageRankOrder {
  import opened Vectors
  import opened PageRank
  import opened PageRankScorer

  // ---------------------------------------------------------------------------
  // Sums over sets of nodes
  // ---------------------------------------------------------------------------

  ghost function SumOver(keys: set<NodeId>, f: NodeId -> real): real {
    if keys == {} then 0.0
    else
      var v :| v in keys;
      f(v) + SumOver(keys - {v}, f)
  }

  /** Any member may be taken first. */
  lemma {:induction false} SumOverPick(keys: set<NodeId>, v: NodeId, f: NodeId -> real)
    requires v in keys
    ensures SumOver(keys, f) == f(v) + SumOver(keys - {v}, f)
  {
    var w :| w in keys && SumOver(keys, f) == f(w) + SumOver(keys - {w}, f);
    if w != v {
      SumOverPick(keys - {w}, v, f);
      SumOverPick(keys - {v}, w, f);
      assert keys - {w} - {v} == keys - {v} - {w};
    }
  }

  lemma {:induction false} SumOverAlike(keys: set<NodeId>, f: NodeId -> real, g: NodeId -> real)
    requires forall v | v in keys :: f(v) == g(v)
    ensures SumOver(keys, f) == SumOver(keys, g)
  {
    if keys != {} {
      var v :| v in keys;
      SumOverPick(keys, v, f);
      SumOverPick(keys, v, g);
      SumOverAlike(keys - {v}, f, g);
    }
  }

  // ---------------------------------------------------------------------------
  // Numberings
  // ---------------------------------------------------------------------------

  /** A numbering of exactly the positions below `n`. */
  ghost predicate Complete(index: map<NodeId, nat>, n: nat) {
    Numbers(index, n) && |index| == n
  }

  /** The node of the last position can be taken away. */
  lemma LastNode(index: map<NodeId, nat>, n: nat) returns (v: NodeId)
    requires Complete(index, n) && n > 0
    ensures v in index && index[v] == n - 1 && Complete(index - {v}, n - 1)
  {
    if forall w | w in index :: index[w] < n - 1 {
      TooMany(index, n - 1);
      assert false;
    }
    v :| v in index && index[v] == n - 1;
    Shrunk(index, v);
  }

  lemma Shrunk(index: map<NodeId, nat>, v: NodeId)
    requires v in index
    ensures |index - {v}| == |index| - 1
  {
    assert (index - {v}).Keys == index.Keys - {v};
    assert |index.Keys| == |index| && |(index - {v}).Keys| == |index - {v}|;
  }

  /** Distinct numbers below `n` are at most `n`. */
  lemma {:induction false} TooMany(index: map<NodeId, nat>, n: nat)
    requires Numbers(index, n)
    ensures |index| <= n
  {
    if n > 0 && exists v :: v in index && index[v] == n - 1 {
      var v :| v in index && index[v] == n - 1;
      Shrunk(index, v);
      TooMany(index - {v}, n - 1);
    } else if n > 0 {
      TooMany(index, n - 1);
    } else {
      assert index.Keys == {} && |index| == |index.Keys|;
    }
  }

  /** A vector's sum, node by node. */
  function Entry(g: Vec, index: map<NodeId, nat>): NodeId -> real {
    v => if v in index && index[v] < |g| then g[index[v]] else 0.0
  }

  lemma {:induction false} SumByNodes(g: Vec, index: map<NodeId, nat>)
    requires Complete(index, |g|)
    ensures Sum(g) == SumOver(index.Keys, Entry(g, index))
  {
    if g == [] {
      assert |index.Keys| == 0;
    } else {
      var v := LastNode(index, |g|);
      var less, rest := g[..|g| - 1], index - {v};
      SumByNodes(less, rest);
      assert rest.Keys == index.Keys - {v};
      SumOverPick(index.Keys, v, Entry(g, index));
      SumOverAlike(rest.Keys, Entry(g, index), Entry(less, rest));
    }
  }

  /** Vectors over two numberings that give every node the same. */
  ghost predicate Alike(g: Vec, index: map<NodeId, nat>, g': Vec, index': map<NodeId, nat>) {
    && index.Keys == index'.Keys && Complete(index, |g|) && Complete(index', |g'|)
    && forall v | v in index :: g[index[v]] == g'[index'[v]]
  }

  lemma AlikeSums(g: Vec, index: map<NodeId, nat>, g': Vec, index': map<NodeId, nat>)
    requires Alike(g, index, g', index')
    ensures Sum(g) == Sum(g')
  {
    SumByNodes(g, index);
    SumByNodes(g', index');
    SumOverAlike(index.Keys, Entry(g, index), Entry(g', index'));
  }

  // ---------------------------------------------------------------------------
  // Walking
  // ---------------------------------------------------------------------------

  /** Two numbered graphs that link the same nodes equally often. */
  ghost predicate SameLinks(out: Graph, index: map<NodeId, nat>, out': Graph, index': map<NodeId, nat>) {
    && GoodGraph(out) && GoodGraph(out') && index.Keys == index'.Keys
    && Complete(index, |out|) && Complete(index', |out'|)
    && forall a, b | a in index && b in index ::
         multiset(out[index[a]])[index[b]] == multiset(out'[index'[a]])[index'[b]]
  }

  /** How often each position is listed. */
  function Counts(targets: seq<nat>, n: nat): (g: Vec)
    ensures |g| == n && forall j | 0 <= j < n :: g[j] == multiset(targets)[j] as real
  {
    seq(n, j requires 0 <= j < n => multiset(targets)[j] as real)
  }

  lemma {:induction false} CountsSum(targets: seq<nat>, n: nat)
    requires Below(targets, n)
    ensures Sum(Counts(targets, n)) == |targets| as real
  {
    if targets == [] {
      SumZeros(Counts(targets, n));
    } else {
      var less, last := targets[..|targets| - 1], targets[|targets| - 1];
      CountsSum(less, n);
      assert targets == less + [last];
      var before := Counts(less, n);
      assert Counts(targets, n) == before[last := before[last] + 1.0];
      SumUpdate(before, last, before[last] + 1.0);
    }
  }

  lemma SameDegree(out: Graph, index: map<NodeId, nat>, out': Graph, index': map<NodeId, nat>, a: NodeId)
    requires SameLinks(out, index, out', index') && a in index
    ensures |out[index[a]]| == |out'[index'[a]]|
  {
    CountsSum(out[index[a]], |out|);
    CountsSum(out'[index'[a]], |out'|);
    AlikeSums(Counts(out[index[a]], |out|), index, Counts(out'[index'[a]], |out'|), index');
  }

  /** Walking in two numberings of one graph gives every node the same. */
  lemma WalksAlike(out: Graph, index: map<NodeId, nat>, out': Graph, index': map<NodeId, nat>, r: Vec, r': Vec)
    requires SameLinks(out, index, out', index') && |r| == |out| && |r'| == |out'| && Alike(r, index, r', index')
    ensures Alike(Walk(out, r), index, Walk(out', r'), index')
  {
    forall b | b in index ensures Walk(out, r)[index[b]] == Walk(out', r')[index'[b]] {
      WalkEntry(out, r, index[b], |out|);
      WalkEntry(out', r', index'[b], |out'|);
      GiftsAlike(out, index, out', index', r, r', b);
      AlikeSums(Gifts(out, r, index[b], |out|), index, Gifts(out', r', index'[b], |out'|), index');
    }
  }

  lemma GiftsAlike(out: Graph, index: map<NodeId, nat>, out': Graph, index': map<NodeId, nat>, r: Vec, r': Vec,
                   b: NodeId)
    requires SameLinks(out, index, out', index') && |r| == |out| && |r'| == |out'| && Alike(r, index, r', index')
    requires b in index
    ensures Alike(Gifts(out, r, index[b], |out|), index, Gifts(out', r', index'[b], |out'|), index')
  {
    forall a | a in index
      ensures Gifts(out, r, index[b], |out|)[index[a]] == Gifts(out', r', index'[b], |out'|)[index'[a]]
    {
      SameDegree(out, index, out', index', a);
    }
  }

  lemma MixesAlike(beta: real, w: Vec, w': Vec, seed: Vec, seed': Vec, index: map<NodeId, nat>,
                   index': map<NodeId, nat>)
    requires |w| == |seed| && |w'| == |seed'| && Alike(w, index, w', index') && Alike(seed, index, seed', index')
    ensures Alike(Mix(beta, w, seed), index, Mix(beta, w', seed'), index')
  {
    hide Mix;
    forall v | v in index ensures Mix(beta, w, seed)[index[v]] == Mix(beta, w', seed')[index'[v]] {
      MixOf(beta, w, seed, index[v], w[index[v]], seed[index[v]]);
      MixOf(beta, w', seed', index'[v], w[index[v]], seed[index[v]]);
    }
  }

  lemma MixOf(beta: real, w: Vec, seed: Vec, i: nat, x: real, s: real)
    requires |w| == |seed| && i < |w| && w[i] == x && seed[i] == s
    ensures Mix(beta, w, seed)[i] == beta * x + (1.0 - beta) * s
  {
    MixEntry(beta, w, seed, i);
  }

  lemma GraphsAreGood(out: Graph, index: map<NodeId, nat>, out': Graph, index': map<NodeId, nat>)
    requires SameLinks(out, index, out', index')
    ensures GoodGraph(out) && GoodGraph(out')
  {
  }

  lemma FirstIterate(beta: real, out: Graph, seed: Vec)
    requires GoodGraph(out) && |seed| == |out|
    ensures Iterate(beta, out, seed, 0) == seed
  {
  }

  lemma {:induction false} IteratesAlike(beta: real, out: Graph, index: map<NodeId, nat>, out': Graph,
                                         index': map<NodeId, nat>, seed: Vec, seed': Vec, n: nat)
    requires SameLinks(out, index, out', index') && |seed| == |out| && |seed'| == |out'|
    requires Alike(seed, index, seed', index')
    ensures Alike(Iterate(beta, out, seed, n), index, Iterate(beta, out', seed', n), index')
  {
    hide Run, Iterate, Walk, Mix, Alike, SameLinks;
    GraphsAreGood(out, index, out', index');
    if n == 0 {
      FirstIterate(beta, out, seed);
      FirstIterate(beta, out', seed');
    } else {
      IteratesAlike(beta, out, index, out', index', seed, seed', n - 1);
      StepExtendsIterate(beta, out, seed, n - 1);
      StepExtendsIterate(beta, out', seed', n - 1);
      var r, r' := Iterate(beta, out, seed, n - 1), Iterate(beta, out', seed', n - 1);
      WalksAlike(out, index, out', index', r, r');
      MixesAlike(beta, Walk(out, r), Walk(out', r'), seed, seed', index, index');
    }
  }

  // ---------------------------------------------------------------------------
  // Seeds and scores
  // ---------------------------------------------------------------------------

  lemma {:induction false} PositionCount(ids: seq<NodeId>, index: map<NodeId, nat>, n: nat, v: NodeId)
    requires Numbers(index, n) && v in index && forall k | 0 <= k < |ids| :: ids[k] in index
    ensures multiset(Positions(ids, index))[index[v]] == multiset(ids)[v]
  {
    if ids != [] {
      var less, last := ids[..|ids| - 1], ids[|ids| - 1];
      PositionCount(less, index, n, v);
      assert ids == less + [last] && Positions(ids, index) == Positions(less, index) + [index[last]];
    }
  }

  /** What a node gets of the seed: from each candidate with a positive similarity an equal part of it for every time
      that the candidate's path lists the node. */
  function Shares(cands: seq<Candidate>, nodes: map<string, seq<NodeId>>, v: NodeId): real {
    if cands == [] then 0.0
    else
      var c := cands[|cands| - 1];
      Shares(cands[..|cands| - 1], nodes, v)
      + if c.path in nodes && nodes[c.path] != [] && c.similarity > 0.0 then
          Times(c.similarity / |nodes[c.path]| as real, multiset(nodes[c.path])[v])
        else 0.0
  }

  lemma {:induction false} RawSeedEntry(cands: seq<Candidate>, nodes: map<string, seq<NodeId>>,
                                        index: map<NodeId, nat>, n: nat, v: NodeId)
    requires Located(nodes, index, n) && Numbers(index, n) && v in index
    ensures RawSeed(cands, nodes, index, n)[index[v]] == Shares(cands, nodes, v)
  {
    if cands != [] {
      var less, c := cands[..|cands| - 1], cands[|cands| - 1];
      RawSeedEntry(less, nodes, index, n, v);
      if Weight(c, nodes) != 0.0 {
        PositionCount(nodes[c.path], index, n, v);
        ScatterEntry(RawSeed(less, nodes, index, n), Positions(nodes[c.path], index), PerNode(c, nodes), index[v]);
      }
    }
  }

  lemma SeedsAlike(cands: seq<Candidate>, nodes: map<string, seq<NodeId>>,
                   index: map<NodeId, nat>, index': map<NodeId, nat>, n: nat)
    requires Located(nodes, index, n) && Located(nodes, index', n)
    requires index.Keys == index'.Keys && Complete(index, n) && Complete(index', n)
    ensures Alike(RawSeed(cands, nodes, index, n), index, RawSeed(cands, nodes, index', n), index')
  {
    forall v | v in index
      ensures RawSeed(cands, nodes, index, n)[index[v]] == RawSeed(cands, nodes, index', n)[index'[v]]
    {
      RawSeedEntry(cands, nodes, index, n, v);
      RawSeedEntry(cands, nodes, index', n, v);
    }
  }

  lemma {:induction false} PicksAlike(ids: seq<NodeId>, r: Vec, index: map<NodeId, nat>, r': Vec,
                                      index': map<NodeId, nat>)
    requires Alike(r, index, r', index') && Placed(ids, index, |r|) && Placed(ids, index', |r'|)
    ensures PickedSum(r, Positions(ids, index)) == PickedSum(r', Positions(ids, index'))
  {
    if ids != [] {
      var less := ids[..|ids| - 1];
      PicksAlike(less, r, index, r', index');
      assert Positions(ids, index)[..|less|] == Positions(less, index);
      assert Positions(ids, index')[..|less|] == Positions(less, index');
    }
  }

  lemma MeansAlike(nodes: map<string, seq<NodeId>>, r: Vec, index: map<NodeId, nat>, r': Vec,
                   index': map<NodeId, nat>)
    requires Located(nodes, index, |r|) && Located(nodes, index', |r'|) && Alike(r, index, r', index')
    ensures RawScores(nodes, index, r) == RawScores(nodes, index', r')
  {
    forall p | p in nodes ensures RawScores(nodes, index, r)[p] == RawScores(nodes, index', r')[p] {
      PicksAlike(nodes[p], r, index, r', index');
    }
  }

  lemma SubgraphsAreLinkedAlike(out: Graph, index: map<NodeId, nat>, out': Graph, index': map<NodeId, nat>,
                                table: seq<Edge>, seedIds: set<NodeId>, maxNodes: nat)
    requires IsSubgraph(out, index, table, seedIds, maxNodes) && IsSubgraph(out', index', table, seedIds, maxNodes)
    ensures SameLinks(out, index, out', index') && |out| == |out'|
  {
    assert |index| == |index.Keys| && |index'| == |index'.Keys|;
  }

  lemma DividedAlike(v: Vec, index: map<NodeId, nat>, v': Vec, index': map<NodeId, nat>, d: real)
    requires Alike(v, index, v', index') && d > 0.0
    ensures Alike(Divided(v, d), index, Divided(v', d), index')
  {
  }

  /** The ranks are the same in any two subgraphs built from the same table. */
  lemma RanksAreDetermined(cands: seq<Candidate>, nodes: map<string, seq<NodeId>>, table: seq<Edge>, maxNodes: nat,
                           beta: real, iterations: nat, out: Graph, index: map<NodeId, nat>, out': Graph,
                           index': map<NodeId, nat>)
    requires IsSubgraph(out, index, table, NodesOf(nodes), maxNodes) && Located(nodes, index, |out|)
    requires IsSubgraph(out', index', table, NodesOf(nodes), maxNodes) && Located(nodes, index', |out'|)
    requires TotalWeight(cands, nodes) > 0.0 && GoodGraph(out) && GoodGraph(out')
    ensures Ranks(cands, nodes, out, index, beta, iterations) == Ranks(cands, nodes, out', index', beta, iterations)
  {
    hide IsSubgraph, RawSeed, Divided, Iterate, RawScores, Located, GoodGraph, NodesOf, Alike;
    SubgraphsAreLinkedAlike(out, index, out', index', table, NodesOf(nodes), maxNodes);
    var n, total := |out|, TotalWeight(cands, nodes);
    SeedsAlike(cands, nodes, index, index', n);
    var seed := Divided(RawSeed(cands, nodes, index, n), total);
    var seed' := Divided(RawSeed(cands, nodes, index', n), total);
    DividedAlike(RawSeed(cands, nodes, index, n), index, RawSeed(cands, nodes, index', n), index', total);
    IteratesAlike(beta, out, index, out', index', seed, seed', iterations);
    MeansAlike(nodes, Iterate(beta, out, seed, iterations), index, Iterate(beta, out', seed', iterations), index');
  }

  lemma {:induction false} SomeMaximum(raw: map<string, real>, keys: set<string>) returns (best: string)
    requires keys <= raw.Keys && keys != {}
    ensures best in keys && forall p | p in keys :: raw[p] <= raw[best]
  {
    best :| best in keys;
    if keys != {best} {
      var rest := keys - {best};
      assert rest != {};
      var other := SomeMaximum(raw, rest);
      if raw[other] > raw[best] { best := other; }
    }
  }

  lemma NormalisedIsDetermined(s: map<string, real>, s': map<string, real>, raw: map<string, real>)
    requires IsNormalised(s, raw) && IsNormalised(s', raw)
    ensures s == s'
  {
    if raw.Keys != {} {
      var p := SomeMaximum(raw, raw.Keys);
      assert raw[p] > 0.0 ==> IsMaximum(raw, raw[p]);
    }
  }

  /** The whole scoring is a function of its inputs, although it enumerates sets. */
  lemma ScoresAreDetermined(cands: seq<Candidate>, nodes: map<string, seq<NodeId>>, table: seq<Edge>, maxNodes: nat,
                            beta: real, iterations: nat, scores: map<string, real>, out: Graph,
                            index: map<NodeId, nat>, scores': map<string, real>, out': Graph,
                            index': map<NodeId, nat>)
    requires Explains(out, index, scores, cands, nodes, table, maxNodes, beta, iterations)
    requires Explains(out', index', scores', cands, nodes, table, maxNodes, beta, iterations)
    ensures scores == scores'
  {
    hide Ranks, IsSubgraph, GoodGraph, Located, IsNormalised;
    RanksAreDetermined(cands, nodes, table, maxNodes, beta, iterations, out, index, out', index');
    NormalisedIsDetermined(scores, scores', Ranks(cands, nodes, out, index, beta, iterations));
  }
}
