/** The containment forest that the merge builds with a stack, and the merge of all its
    levels.  A node is named by its position in the sorted list of chunks. */
module ChunkForest {
  import opened Wrappers
  import opened SourceText
  import opened ChunkLevel
  import opened ChunkLevelProperties

  /** `_contains`: strictly inside. */
  predicate Contains(outer: Chunk, inner: Chunk) {
    && outer.start <= inner.start && inner.end <= outer.end
    && (outer.start < inner.start || inner.end < outer.end)
  }

  function LinesOf(c: Chunk): set<nat> {
    set k: nat | k <= c.end && CoversLine(c, k)
  }

  /** To contain is to have all lines of the other and more. */
  lemma ContainsIsProper(outer: Chunk, inner: Chunk)
    requires inner.start <= inner.end
    ensures Contains(outer, inner) <==> LinesOf(inner) < LinesOf(outer)
  {
    assert inner.start in LinesOf(inner) && inner.end in LinesOf(inner);
    if Contains(outer, inner) {
      assert outer.start in LinesOf(outer) && outer.end in LinesOf(outer);
      assert outer.start !in LinesOf(inner) || outer.end !in LinesOf(inner);
    }
    if LinesOf(inner) < LinesOf(outer) {
      var k :| k in LinesOf(outer) && k !in LinesOf(inner);
    }
  }

  predicate LineDisjoint(a: Chunk, b: Chunk) {
    a.end < b.start || b.end < a.start
  }

  /** Sorted by first line, and the longer range first among equals. */
  ghost predicate Sorted(cs: seq<Chunk>) {
    forall i, j | 0 <= i < j < |cs| ::
      cs[i].start < cs[j].start || (cs[i].start == cs[j].start && cs[i].end >= cs[j].end)
  }

  /** Tree-sitter input: any two ranges are line-disjoint or strictly nested. */
  ghost predicate Laminar(cs: seq<Chunk>) {
    && (forall i | 0 <= i < |cs| :: cs[i].start <= cs[i].end)
    && forall i, j | 0 <= i < j < |cs| ::
      LineDisjoint(cs[i], cs[j]) || Contains(cs[i], cs[j]) || Contains(cs[j], cs[i])
  }

  // ---------------------------------------------------------------------------
  // The stack
  // ---------------------------------------------------------------------------

  ghost predicate StackIn(stack: seq<nat>, n: nat) {
    forall k | 0 <= k < |stack| :: stack[k] < n
  }

  /** Pop until the top contains `c`. */
  function PopTo(cs: seq<Chunk>, stack: seq<nat>, c: Chunk): (r: seq<nat>)
    requires StackIn(stack, |cs|)
    ensures r <= stack && StackIn(r, |cs|)
    ensures r != [] ==> Contains(cs[r[|r| - 1]], c)
  {
    if stack == [] || Contains(cs[stack[|stack| - 1]], c) then stack
    else PopTo(cs, stack[..|stack| - 1], c)
  }

  /** The stack after the first `i` chunks. */
  function StackAt(cs: seq<Chunk>, i: nat): (r: seq<nat>)
    requires i <= |cs|
    ensures StackIn(r, i)
  {
    if i == 0 then []
    else
      var popped := PopTo(cs, StackAt(cs, i - 1), cs[i - 1]);
      assert forall k | 0 <= k < |popped| :: popped[k] == StackAt(cs, i - 1)[k];
      popped + [i - 1]
  }

  /** The open containers when chunk `i` is placed. */
  function OpenAt(cs: seq<Chunk>, i: nat): (r: seq<nat>)
    requires i < |cs|
    ensures StackIn(r, i)
    ensures r != [] ==> Contains(cs[r[|r| - 1]], cs[i])
  {
    var stack := StackAt(cs, i);
    var r := PopTo(cs, stack, cs[i]);
    assert forall k | 0 <= k < |r| :: r[k] == stack[k];
    r
  }

  function Parent(cs: seq<Chunk>, i: nat): (r: Option<nat>)
    requires i < |cs|
    ensures r.Some? ==> r.value < i && Contains(cs[r.value], cs[i])
  {
    var open := OpenAt(cs, i);
    if open == [] then None else Some(open[|open| - 1])
  }

  // ---------------------------------------------------------------------------
  // Parents are smallest containers
  // ---------------------------------------------------------------------------

  ghost predicate Chain(cs: seq<Chunk>, stack: seq<nat>)
    requires StackIn(stack, |cs|)
  {
    forall a, b | 0 <= a < b < |stack| :: Contains(cs[stack[a]], cs[stack[b]])
  }

  /** Whatever the input, each chunk on the stack contains the ones above it. */
  lemma {:induction false} StackIsChain(cs: seq<Chunk>, i: nat)
    requires i <= |cs|
    ensures Chain(cs, StackAt(cs, i))
  {
    if i > 0 {
      StackIsChain(cs, i - 1);
      var below, popped := StackAt(cs, i - 1), OpenAt(cs, i - 1);
      assert StackAt(cs, i) == popped + [i - 1];
      var stack := popped + [i - 1];
      forall a, b | 0 <= a < b < |stack|
        ensures Contains(cs[stack[a]], cs[stack[b]])
      {
        if b < |popped| {
          assert below[a] == popped[a] && below[b] == popped[b];
        } else {
          var top := popped[|popped| - 1];
          assert a < |popped| - 1 ==> Contains(cs[below[a]], cs[below[|popped| - 1]]);
        }
      }
    }
  }

  /** From a chain, popping keeps exactly the members that contain `c`. */
  lemma {:induction false} PopKeepsContainers(cs: seq<Chunk>, stack: seq<nat>, c: Chunk, j: nat)
    requires StackIn(stack, |cs|) && Chain(cs, stack) && j < |cs|
    ensures j in PopTo(cs, stack, c) <==> j in stack && Contains(cs[j], c)
  {
    if stack != [] {
      var less, top := stack[..|stack| - 1], stack[|stack| - 1];
      assert stack == less + [top];
      if Contains(cs[top], c) {
        assert PopTo(cs, stack, c) == stack;
      } else {
        assert Chain(cs, less);
        PopKeepsContainers(cs, less, c, j);
      }
    }
  }

  /** In a laminar list a container contains whatever stands between it and its content. */
  lemma ContainsBetween(cs: seq<Chunk>, j: nat, k: nat, i: nat)
    requires Sorted(cs) && Laminar(cs) && j < k < i < |cs| && Contains(cs[j], cs[i])
    ensures Contains(cs[j], cs[k])
  {
    assert !LineDisjoint(cs[j], cs[k]);
    assert !Contains(cs[k], cs[j]);
  }

  lemma StackIsOpenAndLast(cs: seq<Chunk>, i: nat)
    requires 0 < i <= |cs|
    ensures StackAt(cs, i) == OpenAt(cs, i - 1) + [i - 1]
  {
  }

  /** In a laminar list the open containers of a chunk are all its containers. */
  lemma {:induction false} OpenAreContainers(cs: seq<Chunk>, i: nat, j: nat)
    requires Sorted(cs) && Laminar(cs) && j < i < |cs|
    ensures j in OpenAt(cs, i) <==> Contains(cs[j], cs[i])
    decreases i
  {
    StackIsChain(cs, i);
    PopKeepsContainers(cs, StackAt(cs, i), cs[i], j);
    StackIsOpenAndLast(cs, i);
    if j < i - 1 {
      OpenAreContainers(cs, i - 1, j);
      if Contains(cs[j], cs[i]) {
        ContainsBetween(cs, j, i - 1, i);
      }
    }
  }

  /** The stack gives each chunk of a laminar list its smallest strict container: the
      parent is a container, every other container contains the parent, and a chunk
      without a parent has no container. */
  lemma ParentIsSmallestContainer(cs: seq<Chunk>, i: nat, j: nat)
    requires Sorted(cs) && Laminar(cs) && i < |cs| && j < |cs| && Contains(cs[j], cs[i])
    ensures Parent(cs, i).Some?
    ensures Contains(cs[Parent(cs, i).value], cs[i])
    ensures j == Parent(cs, i).value || Contains(cs[j], cs[Parent(cs, i).value])
  {
    OpenAreContainers(cs, i, j);
    StackIsChain(cs, i);
    var open := OpenAt(cs, i);
    var a :| 0 <= a < |open| && open[a] == j;
    var stack := StackAt(cs, i);
    assert stack[a] == j && stack[|open| - 1] == open[|open| - 1];
  }

  /** Siblings of a laminar list are line-disjoint. */
  lemma SiblingsAreDisjoint(cs: seq<Chunk>, i: nat, j: nat)
    requires Sorted(cs) && Laminar(cs) && i < j < |cs| && Parent(cs, i) == Parent(cs, j)
    ensures cs[i].end < cs[j].start
  {
    if Contains(cs[i], cs[j]) {
      ParentIsSmallestContainer(cs, j, i);
      assert false;
    }
    assert !Contains(cs[j], cs[i]);
  }

  // ---------------------------------------------------------------------------
  // Levels
  // ---------------------------------------------------------------------------

  /** The first `n` chunks whose parent is `p`, in order. */
  function ChildrenBelow(cs: seq<Chunk>, p: Option<nat>, n: nat): (r: seq<nat>)
    requires n <= |cs|
    ensures StackIn(r, n)
    ensures forall k | 0 <= k < |r| :: Parent(cs, r[k]) == p
  {
    if n == 0 then []
    else ChildrenBelow(cs, p, n - 1) + (if Parent(cs, n - 1) == p then [n - 1] else [])
  }

  function Children(cs: seq<Chunk>, p: Option<nat>): (r: seq<nat>)
    ensures StackIn(r, |cs|)
    ensures forall k | 0 <= k < |r| :: Parent(cs, r[k]) == p
  {
    ChildrenBelow(cs, p, |cs|)
  }

  lemma {:induction false} ChildrenIncrease(cs: seq<Chunk>, p: Option<nat>, n: nat)
    requires n <= |cs|
    ensures forall a, b | 0 <= a < b < |ChildrenBelow(cs, p, n)| ::
              ChildrenBelow(cs, p, n)[a] < ChildrenBelow(cs, p, n)[b]
  {
    if n > 0 {
      ChildrenIncrease(cs, p, n - 1);
      var less := ChildrenBelow(cs, p, n - 1);
      assert ChildrenBelow(cs, p, n) == less || ChildrenBelow(cs, p, n) == less + [n - 1];
    }
  }

  lemma {:induction false} ChildrenComplete(cs: seq<Chunk>, i: nat, n: nat)
    requires i < n <= |cs|
    ensures i in ChildrenBelow(cs, Parent(cs, i), n)
  {
    if i < n - 1 {
      ChildrenComplete(cs, i, n - 1);
    }
  }

  function Pick(cs: seq<Chunk>, level: seq<nat>): (r: seq<Chunk>)
    requires StackIn(level, |cs|)
    ensures |r| == |level| && forall k | 0 <= k < |r| :: r[k] == cs[level[k]]
  {
    if level == [] then [] else [cs[level[0]]] + Pick(cs, level[1..])
  }

  function Level(cs: seq<Chunk>, p: Option<nat>): seq<Chunk> {
    Pick(cs, Children(cs, p))
  }

  /** Every chunk belongs to exactly one level, once. */
  lemma EachChunkHasOneLevel(cs: seq<Chunk>, i: nat, p: Option<nat>)
    requires i < |cs|
    ensures i in Children(cs, p) <==> p == Parent(cs, i)
    ensures forall a, b | 0 <= a < b < |Children(cs, p)| :: Children(cs, p)[a] != Children(cs, p)[b]
  {
    ChildrenIncrease(cs, p, |cs|);
    ChildrenComplete(cs, i, |cs|);
  }

  lemma InLevel(cs: seq<Chunk>, n: nat)
    requires n < |cs|
    ensures cs[n] in Level(cs, Parent(cs, n))
  {
    EachChunkHasOneLevel(cs, n, Parent(cs, n));
    var nodes := Children(cs, Parent(cs, n));
    var k :| 0 <= k < |nodes| && nodes[k] == n;
    assert Level(cs, Parent(cs, n))[k] == cs[n];
  }

  lemma LevelIsSorted(cs: seq<Chunk>, p: Option<nat>)
    requires Sorted(cs)
    ensures SortedByStart(Level(cs, p))
  {
    ChildrenIncrease(cs, p, |cs|);
  }

  lemma LevelIsDisjoint(cs: seq<Chunk>, p: Option<nat>)
    requires Sorted(cs) && Laminar(cs)
    ensures Disjoint(Level(cs, p))
  {
    ChildrenIncrease(cs, p, |cs|);
    var level := Children(cs, p);
    forall a, b | 0 <= a < b < |level| ensures cs[level[a]].end < cs[level[b]].start {
      SiblingsAreDisjoint(cs, level[a], level[b]);
    }
  }

  function Rank(cs: seq<Chunk>, p: Option<nat>): nat {
    if p.None? then |cs| + 1 else if p.value < |cs| then |cs| - p.value else 0
  }

  /** What one level contributes. */
  function LevelOutputs(cs: seq<Chunk>, lines: seq<string>, p: Option<nat>, maxNws: nat): seq<Chunk>
    requires AllInFile(cs, lines) && Sorted(cs)
  {
    LevelIsSorted(cs, p);
    MergeLevel(Level(cs, p), lines, p.None?, maxNws)
  }

  /** The outputs of a level and, after them, of the levels below each of its nodes. */
  function Outputs(cs: seq<Chunk>, lines: seq<string>, p: Option<nat>, maxNws: nat): seq<Chunk>
    requires AllInFile(cs, lines) && Sorted(cs)
    decreases Rank(cs, p), 1, 0
  {
    LevelOutputs(cs, lines, p, maxNws) + OutputsBelow(cs, lines, p, Children(cs, p), maxNws)
  }

  function OutputsBelow(cs: seq<Chunk>, lines: seq<string>, p: Option<nat>, nodes: seq<nat>, maxNws: nat): seq<Chunk>
    requires AllInFile(cs, lines) && Sorted(cs)
    requires StackIn(nodes, |cs|) && forall k | 0 <= k < |nodes| :: Parent(cs, nodes[k]) == p
    decreases Rank(cs, p), 0, |nodes|
  {
    if nodes == [] then []
    else
      var last := nodes[|nodes| - 1];
      assert Parent(cs, last) == p;
      OutputsBelow(cs, lines, p, nodes[..|nodes| - 1], maxNws) + Outputs(cs, lines, Some(last), maxNws)
  }

  // ---------------------------------------------------------------------------
  // Where the outputs lie
  // ---------------------------------------------------------------------------

  /** A child-level output lies inside its container, whatever the input. */
  lemma ChildOutputsInside(cs: seq<Chunk>, lines: seq<string>, p: nat, maxNws: nat, i: nat)
    requires AllInFile(cs, lines) && Sorted(cs) && p < |cs|
    requires i < |LevelOutputs(cs, lines, Some(p), maxNws)|
    ensures Within(LevelOutputs(cs, lines, Some(p), maxNws)[i], cs[p])
  {
    LevelIsSorted(cs, Some(p));
    LevelInside(Level(cs, Some(p)), lines, maxNws, i, cs[p]);
  }

  lemma {:induction false} BelowComesFromNode(
    cs: seq<Chunk>, lines: seq<string>, p: Option<nat>, nodes: seq<nat>, maxNws: nat, o: Chunk) returns (n: nat)
    requires AllInFile(cs, lines) && Sorted(cs)
    requires StackIn(nodes, |cs|) && forall k | 0 <= k < |nodes| :: Parent(cs, nodes[k]) == p
    requires o in OutputsBelow(cs, lines, p, nodes, maxNws)
    ensures n in nodes && n < |cs| && Parent(cs, n) == p && o in Outputs(cs, lines, Some(n), maxNws)
    decreases |nodes|
  {
    hide LevelOutputs, Outputs;
    var last := nodes[|nodes| - 1];
    if o in Outputs(cs, lines, Some(last), maxNws) {
      n := last;
    } else {
      n := BelowComesFromNode(cs, lines, p, nodes[..|nodes| - 1], maxNws, o);
    }
  }

  /** All outputs below a container lie inside it. */
  lemma {:induction false} OutputsInside(cs: seq<Chunk>, lines: seq<string>, p: nat, maxNws: nat, o: Chunk)
    requires AllInFile(cs, lines) && Sorted(cs) && p < |cs|
    requires o in Outputs(cs, lines, Some(p), maxNws)
    ensures Within(o, cs[p])
    decreases Rank(cs, Some(p))
  {
    var n := OutputOrigin(cs, lines, Some(p), maxNws, o);
    if n.None? {
      var outputs := LevelOutputs(cs, lines, Some(p), maxNws);
      var i :| 0 <= i < |outputs| && outputs[i] == o;
      ChildOutputsInside(cs, lines, p, maxNws, i);
    } else {
      OutputsInside(cs, lines, n.value, maxNws, o);
    }
  }

  predicate NestedOrDisjoint(a: Chunk, b: Chunk) {
    LineDisjoint(a, b) || Within(a, b) || Within(b, a)
  }

  /** Each node of a level lies inside one of its outputs and apart from the others. */
  lemma NodeVersusOutput(cs: seq<Chunk>, lines: seq<string>, p: Option<nat>, maxNws: nat, n: nat, o: Chunk)
    requires AllInFile(cs, lines) && Sorted(cs) && Laminar(cs)
    requires n < |cs| && Parent(cs, n) == p && o in LevelOutputs(cs, lines, p, maxNws)
    ensures Within(cs[n], o) || LineDisjoint(cs[n], o)
  {
    LevelIsSorted(cs, p);
    LevelIsDisjoint(cs, p);
    InLevel(cs, n);
    ChunkVersusOutput(Level(cs, p), lines, p.None?, maxNws, cs[n], o);
  }

  lemma SameLevel(cs: seq<Chunk>, lines: seq<string>, p: Option<nat>, maxNws: nat, a: Chunk, b: Chunk)
    requires AllInFile(cs, lines) && Sorted(cs) && Laminar(cs)
    requires a in LevelOutputs(cs, lines, p, maxNws) && b in LevelOutputs(cs, lines, p, maxNws)
    ensures a == b || LineDisjoint(a, b)
  {
    LevelIsSorted(cs, p);
    LevelIsDisjoint(cs, p);
    TwoOutputs(Level(cs, p), lines, p.None?, maxNws, a, b);
  }

  lemma DistinctNodes(cs: seq<Chunk>, lines: seq<string>, maxNws: nat, n: nat, m: nat, a: Chunk, b: Chunk)
    requires AllInFile(cs, lines) && Sorted(cs) && Laminar(cs)
    requires n < |cs| && m < |cs| && n != m && Parent(cs, n) == Parent(cs, m)
    requires a in Outputs(cs, lines, Some(n), maxNws) && b in Outputs(cs, lines, Some(m), maxNws)
    ensures LineDisjoint(a, b)
  {
    OutputsInside(cs, lines, n, maxNws, a);
    OutputsInside(cs, lines, m, maxNws, b);
    if n < m { SiblingsAreDisjoint(cs, n, m); } else { SiblingsAreDisjoint(cs, m, n); }
  }

  lemma OriginBelow(cs: seq<Chunk>, lines: seq<string>, p: Option<nat>, maxNws: nat, o: Chunk) returns (n: nat)
    requires AllInFile(cs, lines) && Sorted(cs)
    requires o in Outputs(cs, lines, p, maxNws) && o !in LevelOutputs(cs, lines, p, maxNws)
    ensures n < |cs| && Parent(cs, n) == p && o in Outputs(cs, lines, Some(n), maxNws)
  {
    var own, below := LevelOutputs(cs, lines, p, maxNws), OutputsBelow(cs, lines, p, Children(cs, p), maxNws);
    assert Outputs(cs, lines, p, maxNws) == own + below;
    n := BelowComesFromNode(cs, lines, p, Children(cs, p), maxNws, o);
  }

  ghost predicate Originates(cs: seq<Chunk>, lines: seq<string>, p: Option<nat>, maxNws: nat, o: Chunk, n: Option<nat>)
    requires AllInFile(cs, lines) && Sorted(cs)
  {
    && (n.None? ==> o in LevelOutputs(cs, lines, p, maxNws))
    && (n.Some? ==> n.value < |cs| && Parent(cs, n.value) == p && o in Outputs(cs, lines, n, maxNws))
  }

  /** Where an output comes from: this level, or the outputs below one of its nodes. */
  lemma OutputOrigin(cs: seq<Chunk>, lines: seq<string>, p: Option<nat>, maxNws: nat, o: Chunk) returns (n: Option<nat>)
    requires AllInFile(cs, lines) && Sorted(cs)
    requires o in Outputs(cs, lines, p, maxNws)
    ensures Originates(cs, lines, p, maxNws, o, n)
  {
    n := None;
    if o !in LevelOutputs(cs, lines, p, maxNws) {
      var node := OriginBelow(cs, lines, p, maxNws, o);
      n := Some(node);
    }
  }

  /** Laminarity: any two outputs of a laminar file are nested or disjoint. */
  lemma {:induction false} OutputsAreLaminar(
    cs: seq<Chunk>, lines: seq<string>, p: Option<nat>, maxNws: nat, a: Chunk, b: Chunk)
    requires AllInFile(cs, lines) && Sorted(cs) && Laminar(cs)
    requires a in Outputs(cs, lines, p, maxNws) && b in Outputs(cs, lines, p, maxNws)
    ensures NestedOrDisjoint(a, b)
    decreases Rank(cs, p), 1
  {
    var n := OutputOrigin(cs, lines, p, maxNws, a);
    var m := OutputOrigin(cs, lines, p, maxNws, b);
    if n.None? {
      LevelVersusAny(cs, lines, p, maxNws, a, m, b);
    } else if m.None? {
      LevelVersusAny(cs, lines, p, maxNws, b, n, a);
    } else {
      BelowAreLaminar(cs, lines, p, maxNws, n.value, m.value, a, b);
    }
  }

  lemma {:induction false} BelowAreLaminar(
    cs: seq<Chunk>, lines: seq<string>, p: Option<nat>, maxNws: nat, n: nat, m: nat, a: Chunk, b: Chunk)
    requires AllInFile(cs, lines) && Sorted(cs) && Laminar(cs)
    requires n < |cs| && m < |cs| && Parent(cs, n) == p == Parent(cs, m)
    requires a in Outputs(cs, lines, Some(n), maxNws) && b in Outputs(cs, lines, Some(m), maxNws)
    ensures NestedOrDisjoint(a, b)
    decreases Rank(cs, p), 0
  {
    hide Outputs, OutputsBelow, LevelOutputs;
    if n == m {
      OutputsAreLaminar(cs, lines, Some(n), maxNws, a, b);
    } else {
      DistinctNodes(cs, lines, maxNws, n, m, a, b);
    }
  }

  lemma LevelVersusAny(
    cs: seq<Chunk>, lines: seq<string>, p: Option<nat>, maxNws: nat, a: Chunk, m: Option<nat>, b: Chunk)
    requires AllInFile(cs, lines) && Sorted(cs) && Laminar(cs)
    requires a in LevelOutputs(cs, lines, p, maxNws)
    requires Originates(cs, lines, p, maxNws, b, m)
    ensures NestedOrDisjoint(a, b)
  {
    if m.None? {
      SameLevel(cs, lines, p, maxNws, a, b);
    } else {
      MixedLevels(cs, lines, p, maxNws, a, m.value, b);
    }
  }

  lemma MixedLevels(cs: seq<Chunk>, lines: seq<string>, p: Option<nat>, maxNws: nat, above: Chunk, n: nat, below: Chunk)
    requires AllInFile(cs, lines) && Sorted(cs) && Laminar(cs)
    requires above in LevelOutputs(cs, lines, p, maxNws)
    requires n < |cs| && Parent(cs, n) == p && below in Outputs(cs, lines, Some(n), maxNws)
    ensures NestedOrDisjoint(above, below)
  {
    OutputsInside(cs, lines, n, maxNws, below);
    NodeVersusOutput(cs, lines, p, maxNws, n, above);
  }

  // ---------------------------------------------------------------------------
  // Roots
  // ---------------------------------------------------------------------------

  /** Every chunk lies inside some root. */
  lemma {:induction false} RootOf(cs: seq<Chunk>, i: nat) returns (r: nat)
    requires i < |cs|
    ensures r < |cs| && Parent(cs, r) == None && Within(cs[i], cs[r])
  {
    if Parent(cs, i).None? {
      r := i;
    } else {
      r := RootOf(cs, Parent(cs, i).value);
    }
  }

  /** No captured gap meets any chunk of the file, nested ones included. */
  lemma GapsMeetNoInput(cs: seq<Chunk>, lines: seq<string>, k: nat, i: nat)
    requires AllInFile(cs, lines) && Sorted(cs) && i < |cs|
    requires k < |Segments(Level(cs, None), lines, 0, true)|
    requires Segments(Level(cs, None), lines, 0, true)[k].original.None?
    ensures var gap := Segments(Level(cs, None), lines, 0, true)[k];
            gap.end < cs[i].start || cs[i].end < gap.start
  {
    LevelIsSorted(cs, None);
    var r := RootOf(cs, i);
    EachChunkHasOneLevel(cs, r, None);
    var a :| 0 <= a < |Children(cs, None)| && Children(cs, None)[a] == r;
    GapsMeetNoChunk(Level(cs, None), lines, 0, k, a);
  }

  /** How many root outputs a file can have, for aligned chunks with line-disjoint roots. */
  lemma RootCount(cs: seq<Chunk>, lines: seq<string>, maxNws: nat)
    requires AllInFile(cs, lines) && Sorted(cs) && Disjoint(Level(cs, None))
    requires forall i | 0 <= i < |cs| :: Aligned(cs[i], lines)
    ensures |LevelOutputs(cs, lines, None, maxNws)| <= 2 * (NwsCount(Join(lines)) / (maxNws + 1)) + 1
  {
    LevelIsSorted(cs, None);
    RootOutputCount(Level(cs, None), lines, maxNws);
  }

  /** Coverage: every contentful line of the file lies in some output. */
  lemma FileIsCovered(cs: seq<Chunk>, lines: seq<string>, maxNws: nat, line: nat) returns (o: Chunk)
    requires AllInFile(cs, lines) && Sorted(cs)
    requires 1 <= line <= |lines| && !Blank(lines[line - 1])
    ensures o in Outputs(cs, lines, None, maxNws) && CoversLine(o, line)
  {
    LevelIsSorted(cs, None);
    var i := LevelCoversFile(Level(cs, None), lines, maxNws, line);
    o := LevelOutputs(cs, lines, None, maxNws)[i];
  }

  lemma LevelOutputIsFaithful(cs: seq<Chunk>, lines: seq<string>, p: Option<nat>, maxNws: nat, o: Chunk)
    requires AllInFile(cs, lines) && Sorted(cs)
    requires o in LevelOutputs(cs, lines, p, maxNws)
    ensures InFile(o, lines) && (o.content == Span(lines, o.start - 1, o.end) || o in cs)
  {
    LevelIsSorted(cs, p);
    OutputIsFaithful(Level(cs, p), lines, p.None?, maxNws, o);
    LevelIsFromFile(cs, p, o);
  }

  lemma LevelIsFromFile(cs: seq<Chunk>, p: Option<nat>, o: Chunk)
    ensures o in Level(cs, p) ==> o in cs
  {
    var level := Level(cs, p);
    if o in level {
      var k :| 0 <= k < |level| && level[k] == o;
      assert o == cs[Children(cs, p)[k]];
    }
  }

  /** Fidelity: every output is the exact text of its lines, or an input chunk. */
  lemma {:induction false} OutputsAreFaithful(cs: seq<Chunk>, lines: seq<string>, p: Option<nat>, maxNws: nat, o: Chunk)
    requires AllInFile(cs, lines) && Sorted(cs)
    requires o in Outputs(cs, lines, p, maxNws)
    ensures InFile(o, lines) && (o.content == Span(lines, o.start - 1, o.end) || o in cs)
    decreases Rank(cs, p)
  {
    var n := OutputOrigin(cs, lines, p, maxNws, o);
    if n.None? {
      LevelOutputIsFaithful(cs, lines, p, maxNws, o);
    } else {
      OutputsAreFaithful(cs, lines, n, maxNws, o);
    }
  }

  /** Budget: an output that is too heavy is an input chunk or a captured gap packed with nothing else. */
  lemma {:induction false} OutputsWithinBudget(
      cs: seq<Chunk>, lines: seq<string>, p: Option<nat>, maxNws: nat, o: Chunk)
    requires AllInFile(cs, lines) && Sorted(cs)
    requires forall i | 0 <= i < |cs| :: Aligned(cs[i], lines)
    requires o in Outputs(cs, lines, p, maxNws)
    ensures NwsCount(o.content) <= maxNws || o in cs || LoneGap(Level(cs, None), lines, o)
    decreases Rank(cs, p)
  {
    hide NwsCount, Parent, Outputs, Segments;
    var n := OutputOrigin(cs, lines, p, maxNws, o);
    if n.None? {
      LevelIsSorted(cs, p);
      OutputWithinBudget(Level(cs, p), lines, p.None?, maxNws, o);
      LevelIsFromFile(cs, p, o);
    } else {
      OutputsWithinBudget(cs, lines, n, maxNws, o);
    }
  }

  // ---------------------------------------------------------------------------
  // Files without nesting
  // ---------------------------------------------------------------------------

  lemma FlatParent(cs: seq<Chunk>, i: nat)
    requires Disjoint(cs) && i < |cs| && forall k | 0 <= k < |cs| :: cs[k].start <= cs[k].end
    ensures Parent(cs, i).None?
  {
  }

  lemma FlatLevels(cs: seq<Chunk>, n: nat)
    requires Disjoint(cs) && forall k | 0 <= k < |cs| :: cs[k].start <= cs[k].end
    ensures Children(cs, Some(n)) == []
  {
    var nodes := Children(cs, Some(n));
    if nodes != [] {
      FlatParent(cs, nodes[0]);
      assert false;
    }
  }

  lemma ChildlessNode(cs: seq<Chunk>, lines: seq<string>, n: nat, maxNws: nat)
    requires AllInFile(cs, lines) && Sorted(cs) && Children(cs, Some(n)) == []
    ensures Outputs(cs, lines, Some(n), maxNws) == []
  {
    assert Level(cs, Some(n)) == [];
    EmptyLevel(lines, maxNws);
  }

  lemma EmptyLevel(lines: seq<string>, maxNws: nat)
    ensures MergeLevel([], lines, false, maxNws) == []
  {
  }

  lemma {:induction false} NothingBelow(cs: seq<Chunk>, lines: seq<string>, nodes: seq<nat>, maxNws: nat)
    requires AllInFile(cs, lines) && Sorted(cs) && Disjoint(cs)
    requires StackIn(nodes, |cs|) && forall k | 0 <= k < |nodes| :: Parent(cs, nodes[k]) == None
    ensures OutputsBelow(cs, lines, None, nodes, maxNws) == []
  {
    hide Outputs, Parent;
    if nodes != [] {
      NothingBelow(cs, lines, nodes[..|nodes| - 1], maxNws);
      FlatLevels(cs, nodes[|nodes| - 1]);
      ChildlessNode(cs, lines, nodes[|nodes| - 1], maxNws);
    }
  }

  /** How many outputs a file of aligned, line-disjoint chunks has. */
  lemma OutputCount(cs: seq<Chunk>, lines: seq<string>, maxNws: nat)
    requires AllInFile(cs, lines) && Sorted(cs) && Disjoint(cs)
    requires forall i | 0 <= i < |cs| :: Aligned(cs[i], lines)
    ensures |Outputs(cs, lines, None, maxNws)| <= 2 * (NwsCount(Join(lines)) / (maxNws + 1)) + 1
  {
    NothingBelow(cs, lines, Children(cs, None), maxNws);
    ChildrenIncrease(cs, None, |cs|);
    RootCount(cs, lines, maxNws);
  }

  // ---------------------------------------------------------------------------
  // Every level is emitted
  // ---------------------------------------------------------------------------

  /** The ancestor of `i`, or `i` itself, that stands on level `p`. */
  function Top(cs: seq<Chunk>, i: nat, p: Option<nat>): (r: Option<nat>)
    requires i < |cs|
    ensures r.Some? ==> r.value <= i && Parent(cs, r.value) == p
    ensures p.None? ==> r.Some?
  {
    if Parent(cs, i) == p then Some(i)
    else if Parent(cs, i).None? then None
    else Top(cs, Parent(cs, i).value, p)
  }

  /** The chunks below `p`, direct and indirect. */
  function Below(cs: seq<Chunk>, p: Option<nat>): set<nat> {
    set i | 0 <= i < |cs| && Top(cs, i, p).Some?
  }

  /** A chunk of level `p` with everything below it. */
  function Subtree(cs: seq<Chunk>, p: Option<nat>, n: nat): set<nat> {
    set i | 0 <= i < |cs| && Top(cs, i, p) == Some(n)
  }

  lemma {:induction false} TopBelow(cs: seq<Chunk>, i: nat, n: nat)
    requires i < |cs| && n < |cs|
    ensures Top(cs, i, Some(n)).Some? ==> n < i
  {
    hide Parent, Contains;
    if Parent(cs, i).Some? && Parent(cs, i) != Some(n) { TopBelow(cs, Parent(cs, i).value, n); }
  }

  /** To stand under chunk `n` of level `p` is to be `n` or to stand under a child of it. */
  lemma {:induction false} TopThrough(cs: seq<Chunk>, i: nat, p: Option<nat>, n: nat)
    requires i < |cs| && n < |cs| && Parent(cs, n) == p
    ensures Top(cs, i, p) == Some(n) <==> i == n || Top(cs, i, Some(n)).Some?
    decreases i
  {
    hide Parent, Contains;
    TopBelow(cs, i, n);
    if Parent(cs, i).Some? {
      var parent := Parent(cs, i).value;
      TopBelow(cs, parent, n);
      TopThrough(cs, parent, p, n);
    }
  }

  lemma SubtreeIs(cs: seq<Chunk>, p: Option<nat>, n: nat)
    requires n < |cs| && Parent(cs, n) == p
    ensures Subtree(cs, p, n) == {n} + Below(cs, Some(n)) && n !in Below(cs, Some(n))
  {
    forall i | 0 <= i < |cs| ensures i in Subtree(cs, p, n) <==> i in {n} + Below(cs, Some(n)) {
      TopThrough(cs, i, p, n);
    }
    TopBelow(cs, n, n);
  }

  /** What the levels below the chunks of `nodes` contribute, counted together. */
  function LevelsOf(cs: seq<Chunk>, lines: seq<string>, maxNws: nat, nodes: set<nat>, n: nat): multiset<Chunk>
    requires AllInFile(cs, lines) && Sorted(cs) && n <= |cs|
  {
    if n == 0 then multiset{}
    else
      LevelsOf(cs, lines, maxNws, nodes, n - 1)
      + if n - 1 in nodes then multiset(LevelOutputs(cs, lines, Some(n - 1), maxNws)) else multiset{}
  }

  lemma {:induction false} LevelsOfUnion(
      cs: seq<Chunk>, lines: seq<string>, maxNws: nat, a: set<nat>, b: set<nat>, n: nat)
    requires AllInFile(cs, lines) && Sorted(cs) && n <= |cs| && a !! b
    ensures LevelsOf(cs, lines, maxNws, a + b, n) ==
            LevelsOf(cs, lines, maxNws, a, n) + LevelsOf(cs, lines, maxNws, b, n)
  {
    hide LevelOutputs;
    if n > 0 { LevelsOfUnion(cs, lines, maxNws, a, b, n - 1); }
  }

  lemma {:induction false} LevelsOfOne(cs: seq<Chunk>, lines: seq<string>, maxNws: nat, k: nat, n: nat)
    requires AllInFile(cs, lines) && Sorted(cs) && n <= |cs| && k < |cs|
    ensures LevelsOf(cs, lines, maxNws, {k}, n) ==
            if k < n then multiset(LevelOutputs(cs, lines, Some(k), maxNws)) else multiset{}
  {
    hide LevelOutputs, Sorted;
    if n > 0 { LevelsOfOne(cs, lines, maxNws, k, n - 1); }
  }

  /** Everything under the chunks of a list of siblings. */
  function SubtreesOf(cs: seq<Chunk>, p: Option<nat>, nodes: seq<nat>): set<nat> {
    set i | 0 <= i < |cs| && Top(cs, i, p).Some? && Top(cs, i, p).value in nodes
  }

  lemma SubtreesGrow(cs: seq<Chunk>, p: Option<nat>, nodes: seq<nat>)
    requires nodes != [] && nodes[|nodes| - 1] !in nodes[..|nodes| - 1]
    ensures var less, last := nodes[..|nodes| - 1], nodes[|nodes| - 1];
            && SubtreesOf(cs, p, nodes) == SubtreesOf(cs, p, less) + Subtree(cs, p, last)
            && SubtreesOf(cs, p, less) !! Subtree(cs, p, last)
  {
    var less, last := nodes[..|nodes| - 1], nodes[|nodes| - 1];
    assert nodes == less + [last];
  }

  lemma AllChildren(cs: seq<Chunk>, p: Option<nat>)
    ensures SubtreesOf(cs, p, Children(cs, p)) == Below(cs, p)
  {
    forall i | i in Below(cs, p) ensures i in SubtreesOf(cs, p, Children(cs, p)) {
      EachChunkHasOneLevel(cs, Top(cs, i, p).value, p);
    }
  }

  lemma {:induction false} BelowIsAllLevels(
      cs: seq<Chunk>, lines: seq<string>, p: Option<nat>, nodes: seq<nat>, maxNws: nat)
    requires AllInFile(cs, lines) && Sorted(cs)
    requires StackIn(nodes, |cs|) && forall k | 0 <= k < |nodes| :: Parent(cs, nodes[k]) == p
    requires forall a, b | 0 <= a < b < |nodes| :: nodes[a] != nodes[b]
    ensures multiset(OutputsBelow(cs, lines, p, nodes, maxNws)) ==
            LevelsOf(cs, lines, maxNws, SubtreesOf(cs, p, nodes), |cs|)
    decreases Rank(cs, p), 0, |nodes|
  {
    hide Outputs, LevelOutputs, Parent, Top, LevelsOf;
    if nodes == [] {
      assert SubtreesOf(cs, p, nodes) == {};
      NoLevels(cs, lines, maxNws, |cs|);
    } else {
      var less, last := nodes[..|nodes| - 1], nodes[|nodes| - 1];
      assert nodes[|nodes| - 1] == last;
      BelowIsAllLevels(cs, lines, p, less, maxNws);
      SubtreesGrow(cs, p, nodes);
      LevelsOfUnion(cs, lines, maxNws, SubtreesOf(cs, p, less), Subtree(cs, p, last), |cs|);
      NodeIsAllLevels(cs, lines, p, last, maxNws);
    }
  }

  lemma {:induction false} NoLevels(cs: seq<Chunk>, lines: seq<string>, maxNws: nat, n: nat)
    requires AllInFile(cs, lines) && Sorted(cs) && n <= |cs|
    ensures LevelsOf(cs, lines, maxNws, {}, n) == multiset{}
  {
    if n > 0 { NoLevels(cs, lines, maxNws, n - 1); }
  }

  lemma NodeIsAllLevels(cs: seq<Chunk>, lines: seq<string>, p: Option<nat>, n: nat, maxNws: nat)
    requires AllInFile(cs, lines) && Sorted(cs) && n < |cs| && Parent(cs, n) == p
    ensures multiset(Outputs(cs, lines, Some(n), maxNws)) == LevelsOf(cs, lines, maxNws, Subtree(cs, p, n), |cs|)
    decreases Rank(cs, p), 0, 0
  {
    SubtreeIs(cs, p, n);
    LevelsOfUnion(cs, lines, maxNws, {n}, Below(cs, Some(n)), |cs|);
    LevelsOfOne(cs, lines, maxNws, n, |cs|);
    OutputsAreTheLevels(cs, lines, Some(n), maxNws);
  }

  /** The outputs of a level and all below it are the outputs of the single levels, each level once. */
  lemma OutputsAreTheLevels(cs: seq<Chunk>, lines: seq<string>, p: Option<nat>, maxNws: nat)
    requires AllInFile(cs, lines) && Sorted(cs)
    ensures multiset(Outputs(cs, lines, p, maxNws)) ==
            multiset(LevelOutputs(cs, lines, p, maxNws)) + LevelsOf(cs, lines, maxNws, Below(cs, p), |cs|)
    decreases Rank(cs, p), 1, 0
  {
    hide LevelOutputs, LevelsOf, Top, Parent;
    ChildrenIncrease(cs, p, |cs|);
    BelowIsAllLevels(cs, lines, p, Children(cs, p), maxNws);
    AllChildren(cs, p);
  }

  /** All levels of a file: the roots, and the children of each chunk. */
  function AllLevels(cs: seq<Chunk>, lines: seq<string>, maxNws: nat, n: nat): multiset<Chunk>
    requires AllInFile(cs, lines) && Sorted(cs) && n <= |cs|
  {
    if n == 0 then multiset(LevelOutputs(cs, lines, None, maxNws))
    else AllLevels(cs, lines, maxNws, n - 1) + multiset(LevelOutputs(cs, lines, Some(n - 1), maxNws))
  }

  lemma {:induction false} LevelsOfAll(cs: seq<Chunk>, lines: seq<string>, maxNws: nat, n: nat)
    requires AllInFile(cs, lines) && Sorted(cs) && n <= |cs|
    ensures multiset(LevelOutputs(cs, lines, None, maxNws)) + LevelsOf(cs, lines, maxNws, Below(cs, None), n) ==
            AllLevels(cs, lines, maxNws, n)
  {
    hide LevelOutputs, Parent, Sorted;
    if n > 0 {
      LevelsOfAll(cs, lines, maxNws, n - 1);
      assert n - 1 in Below(cs, None);
      Regrouped(multiset(LevelOutputs(cs, lines, None, maxNws)),
                LevelsOf(cs, lines, maxNws, Below(cs, None), n - 1),
                multiset(LevelOutputs(cs, lines, Some(n - 1), maxNws)));
    }
  }

  lemma Regrouped(a: multiset<Chunk>, b: multiset<Chunk>, c: multiset<Chunk>)
    ensures a + (b + c) == (a + b) + c
  {
  }

  /** Nothing is lost and nothing doubled: a file's outputs are exactly the outputs of all its levels. */
  lemma FileIsAllLevels(cs: seq<Chunk>, lines: seq<string>, maxNws: nat)
    requires AllInFile(cs, lines) && Sorted(cs)
    ensures multiset(Outputs(cs, lines, None, maxNws)) == AllLevels(cs, lines, maxNws, |cs|)
  {
    OutputsAreTheLevels(cs, lines, None, maxNws);
    LevelsOfAll(cs, lines, maxNws, |cs|);
  }

  lemma {:induction false} LevelIsThere(cs: seq<Chunk>, lines: seq<string>, maxNws: nat, p: Option<nat>, n: nat)
    requires AllInFile(cs, lines) && Sorted(cs) && n <= |cs| && (p.Some? ==> p.value < n)
    ensures multiset(LevelOutputs(cs, lines, p, maxNws)) <= AllLevels(cs, lines, maxNws, n)
  {
    hide LevelOutputs;
    if n > 0 && p != Some(n - 1) { LevelIsThere(cs, lines, maxNws, p, n - 1); }
  }

  /** Each chunk, however deeply nested, lies inside an output that its own level contributes. */
  lemma ChunkIsEmitted(cs: seq<Chunk>, lines: seq<string>, maxNws: nat, i: nat) returns (o: Chunk)
    requires AllInFile(cs, lines) && Sorted(cs) && i < |cs|
    ensures o in LevelOutputs(cs, lines, Parent(cs, i), maxNws) && Within(cs[i], o)
    ensures o in Outputs(cs, lines, None, maxNws)
  {
    var p := Parent(cs, i);
    LevelIsSorted(cs, p);
    InLevel(cs, i);
    LevelKeepsChunks(Level(cs, p), lines, p.None?, maxNws);
    var outputs := LevelOutputs(cs, lines, p, maxNws);
    var k :| 0 <= k < |outputs| && Within(cs[i], outputs[k]);
    o := outputs[k];
    LevelIsThere(cs, lines, maxNws, p, |cs|);
    FileIsAllLevels(cs, lines, maxNws);
    assert o in multiset(outputs);
    assert o in multiset(Outputs(cs, lines, None, maxNws));
  }
}
