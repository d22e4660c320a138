/** `merge_file_chunks` and its loops, proved against the level and forest functions. */
module ChunkMerging {
  import opened Wrappers
  import opened SourceText
  import opened ChunkLevel
  import opened ChunkLevelProperties
  import opened ChunkForest

  // ---------------------------------------------------------------------------
  // Stable sorting
  // ---------------------------------------------------------------------------

  /** The key `(start_line, -end_line)`. */
  predicate WiderFirst(a: Chunk, b: Chunk) {
    a.start < b.start || (a.start == b.start && a.end >= b.end)
  }

  /** The key `(start_line, end_line)`. */
  predicate NarrowerFirst(a: Chunk, b: Chunk) {
    a.start < b.start || (a.start == b.start && a.end <= b.end)
  }

  ghost predicate TotalPreorder(le: (Chunk, Chunk) -> bool) {
    && (forall a, b :: le(a, b) || le(b, a))
    && (forall a, b, c :: le(a, b) && le(b, c) ==> le(a, c))
  }

  ghost predicate SortedBy(le: (Chunk, Chunk) -> bool, s: seq<Chunk>) {
    forall i, j | 0 <= i < j < |s| :: le(s[i], s[j])
  }

  function Insert(le: (Chunk, Chunk) -> bool, s: seq<Chunk>, c: Chunk): seq<Chunk> {
    if s == [] || le(s[|s| - 1], c) then s + [c]
    else Insert(le, s[..|s| - 1], c) + [s[|s| - 1]]
  }

  function Sort(le: (Chunk, Chunk) -> bool, s: seq<Chunk>): seq<Chunk> {
    if s == [] then [] else Insert(le, Sort(le, s[..|s| - 1]), s[|s| - 1])
  }

  lemma {:induction false} InsertFacts(le: (Chunk, Chunk) -> bool, s: seq<Chunk>, c: Chunk)
    requires TotalPreorder(le) && SortedBy(le, s)
    ensures SortedBy(le, Insert(le, s, c))
  {
    if s != [] && !le(s[|s| - 1], c) {
      InsertFacts(le, s[..|s| - 1], c);
      InsertStaysBelow(le, s[..|s| - 1], c, s[|s| - 1]);
    }
  }

  lemma {:induction false} InsertPermutes(le: (Chunk, Chunk) -> bool, s: seq<Chunk>, c: Chunk)
    ensures multiset(Insert(le, s, c)) == multiset(s) + multiset{c}
  {
    if s != [] && !le(s[|s| - 1], c) {
      InsertPermutes(le, s[..|s| - 1], c);
      assert s == s[..|s| - 1] + [s[|s| - 1]];
    }
  }

  lemma {:induction false} InsertStaysBelow(le: (Chunk, Chunk) -> bool, s: seq<Chunk>, c: Chunk, last: Chunk)
    requires (forall i | 0 <= i < |s| :: le(s[i], last)) && le(c, last)
    ensures forall i | 0 <= i < |Insert(le, s, c)| :: le(Insert(le, s, c)[i], last)
  {
    if s != [] && !le(s[|s| - 1], c) {
      InsertStaysBelow(le, s[..|s| - 1], c, last);
    }
  }

  lemma {:induction false} SortFacts(le: (Chunk, Chunk) -> bool, s: seq<Chunk>)
    requires TotalPreorder(le)
    ensures SortedBy(le, Sort(le, s)) && multiset(Sort(le, s)) == multiset(s)
  {
    hide Insert;
    if s != [] {
      SortFacts(le, s[..|s| - 1]);
      InsertFacts(le, Sort(le, s[..|s| - 1]), s[|s| - 1]);
      InsertPermutes(le, Sort(le, s[..|s| - 1]), s[|s| - 1]);
      assert s == s[..|s| - 1] + [s[|s| - 1]];
    }
  }

  predicate Same(le: (Chunk, Chunk) -> bool, a: Chunk, b: Chunk) {
    le(a, b) && le(b, a)
  }

  /** The chunks with the same key as `c`, in order. */
  function SameKey(le: (Chunk, Chunk) -> bool, s: seq<Chunk>, c: Chunk): seq<Chunk> {
    if s == [] then []
    else SameKey(le, s[..|s| - 1], c) + if Same(le, s[|s| - 1], c) then [s[|s| - 1]] else []
  }

  lemma {:induction false} InsertIsStable(le: (Chunk, Chunk) -> bool, s: seq<Chunk>, x: Chunk, c: Chunk)
    requires TotalPreorder(le)
    ensures SameKey(le, Insert(le, s, x), c) == SameKey(le, s, c) + if Same(le, x, c) then [x] else []
  {
    if s == [] || le(s[|s| - 1], x) {
      assert (s + [x])[..|s|] == s;
    } else {
      var less, last := s[..|s| - 1], s[|s| - 1];
      InsertIsStable(le, less, x, c);
      var inserted := Insert(le, less, x);
      assert (inserted + [last])[..|inserted|] == inserted;
      assert !(Same(le, last, c) && Same(le, x, c));
    }
  }

  /** Chunks with the same key keep their order. */
  lemma {:induction false} SortIsStable(le: (Chunk, Chunk) -> bool, s: seq<Chunk>, c: Chunk)
    requires TotalPreorder(le)
    ensures SameKey(le, Sort(le, s), c) == SameKey(le, s, c)
  {
    if s != [] {
      SortIsStable(le, s[..|s| - 1], c);
      InsertIsStable(le, Sort(le, s[..|s| - 1]), s[|s| - 1], c);
    }
  }

  /** The chunks in the order the stack algorithm takes them. */
  function SortedChunks(chunks: seq<Chunk>): (cs: seq<Chunk>)
    ensures Sorted(cs) && multiset(cs) == multiset(chunks)
  {
    SortFacts(WiderFirst, chunks);
    Sort(WiderFirst, chunks)
  }

  lemma PermutationInFile(chunks: seq<Chunk>, cs: seq<Chunk>, lines: seq<string>)
    requires multiset(cs) == multiset(chunks) && AllInFile(chunks, lines)
    ensures AllInFile(cs, lines)
  {
    forall i | 0 <= i < |cs| ensures InFile(cs[i], lines) {
      assert cs[i] in multiset(chunks);
      var k :| 0 <= k < |chunks| && chunks[k] == cs[i];
    }
  }

  // ---------------------------------------------------------------------------
  // Loops
  // ---------------------------------------------------------------------------

  /** The inner loop: pop until the top contains the chunk. */
  method PopStack(cs: seq<Chunk>, stack: seq<nat>, i: nat) returns (r: seq<nat>)
    requires i < |cs| && stack == StackAt(cs, i)
    ensures r == OpenAt(cs, i)
  {
    r := stack;
    while r != [] && !Contains(cs[r[|r| - 1]], cs[i])
      invariant StackIn(r, |cs|) && PopTo(cs, r, cs[i]) == OpenAt(cs, i)
    {
      r := r[..|r| - 1];
    }
  }

  /** What the stack loop has built from the first `i` chunks. */
  ghost predicate ForestSoFar(cs: seq<Chunk>, children: seq<seq<nat>>, roots: seq<nat>, stack: seq<nat>, i: nat)
    requires i <= |cs|
  {
    stack == StackAt(cs, i) && ChildrenSoFar(cs, children, i) && roots == ChildrenBelow(cs, None, i)
  }

  /** Every children list holds the children found among the first `i` chunks. */
  ghost predicate ChildrenSoFar(cs: seq<Chunk>, children: seq<seq<nat>>, i: nat)
    requires i <= |cs|
  {
    |children| == |cs| && forall p | 0 <= p < |cs| :: children[p] == ChildrenBelow(cs, Some(p), i)
  }

  lemma ChildAppended(cs: seq<Chunk>, children: seq<seq<nat>>, i: nat)
    requires i < |cs| && ChildrenSoFar(cs, children, i)
    ensures Parent(cs, i).None? ==> ChildrenSoFar(cs, children, i + 1)
    ensures Parent(cs, i).Some? ==>
              ChildrenSoFar(cs, children[Parent(cs, i).value := children[Parent(cs, i).value] + [i]], i + 1)
  {
    forall p | 0 <= p < |cs|
      ensures ChildrenBelow(cs, Some(p), i + 1) == children[p] + (if Parent(cs, i) == Some(p) then [i] else [])
    {
    }
  }

  lemma ForestStep(cs: seq<Chunk>, i: nat)
    requires i < |cs|
    ensures StackAt(cs, i + 1) == OpenAt(cs, i) + [i]
    ensures Parent(cs, i) == if OpenAt(cs, i) == [] then None else Some(OpenAt(cs, i)[|OpenAt(cs, i)| - 1])
    ensures ChildrenBelow(cs, None, i + 1) == ChildrenBelow(cs, None, i) + (if Parent(cs, i) == None then [i] else [])
  {
  }

  lemma ForestStarts(cs: seq<Chunk>, children: seq<seq<nat>>)
    requires |children| == |cs| && forall p | 0 <= p < |cs| :: children[p] == []
    ensures ForestSoFar(cs, children, [], [], 0)
  {
  }

  /** Chunk `i` becomes a root, or the last child of the container found. */
  lemma ForestGrows(cs: seq<Chunk>, children: seq<seq<nat>>, roots: seq<nat>, stack: seq<nat>, i: nat, open: seq<nat>)
    requires i < |cs| && ForestSoFar(cs, children, roots, stack, i) && open == OpenAt(cs, i)
    ensures open == [] ==> ForestSoFar(cs, children, roots + [i], open + [i], i + 1)
    ensures open != [] ==>
              var top := open[|open| - 1];
              top < |children| && ForestSoFar(cs, children[top := children[top] + [i]], roots, open + [i], i + 1)
  {
    ForestStep(cs, i);
    ChildAppended(cs, children, i);
  }

  lemma ForestEnds(cs: seq<Chunk>, children: seq<seq<nat>>, roots: seq<nat>, stack: seq<nat>)
    requires ForestSoFar(cs, children, roots, stack, |cs|)
    ensures |children| == |cs| && forall p | 0 <= p < |cs| :: children[p] == Children(cs, Some(p))
    ensures roots == Children(cs, None)
  {
  }

  /** The stack loop: children lists and roots. */
  method BuildForest(cs: seq<Chunk>) returns (children: seq<seq<nat>>, roots: seq<nat>)
    ensures |children| == |cs| && forall p | 0 <= p < |cs| :: children[p] == Children(cs, Some(p))
    ensures roots == Children(cs, None)
  {
    hide StackAt, OpenAt, PopTo, ChildrenBelow, ChildrenSoFar, Children, Contains;
    children := seq(|cs|, _ => []);
    roots := [];
    var stack: seq<nat> := [];
    ForestStarts(cs, children);
    for i := 0 to |cs|
      invariant ForestSoFar(cs, children, roots, stack, i)
    {
      var open := PopStack(cs, stack, i);
      ForestGrows(cs, children, roots, stack, i, open);
      if open != [] {
        var top := open[|open| - 1];
        children := children[top := children[top] + [i]];
      } else {
        roots := roots + [i];
      }
      stack := open + [i];
    }
    ForestEnds(cs, children, roots, stack);
  }

  lemma SegmentStep(chunks: seq<Chunk>, lines: seq<string>, i: nat, covered: nat, gaps: bool, done: seq<Segment>)
    requires AllInFile(chunks, lines) && covered <= |lines| && i < |chunks|
    ensures var c := chunks[i];
            var after := Segments(chunks[i + 1..], lines, Max(covered, c.end), gaps);
            done + Segments(chunks[i..], lines, covered, gaps) ==
            if gaps && covered < c.start - 1 then done + Gap(lines, covered, c.start - 1) + [ChunkSegment(c)] + after
            else done + [ChunkSegment(c)] + after
  {
    var c := chunks[i];
    var after := Segments(chunks[i + 1..], lines, Max(covered, c.end), gaps);
    assert chunks[i..][1..] == chunks[i + 1..] && chunks[i..][0] == c;
    Regroup(done, GapBefore(c, lines, covered, gaps), [ChunkSegment(c)], after);
  }

  lemma Regroup(a: seq<Segment>, b: seq<Segment>, c: seq<Segment>, d: seq<Segment>)
    ensures a + (b + c + d) == a + b + c + d
    ensures b == [] ==> a + (b + c + d) == a + c + d
  {
  }

  lemma LastSegment(lines: seq<string>, covered: nat, gaps: bool)
    requires covered <= |lines|
    ensures Segments([], lines, covered, gaps) == if gaps && covered < |lines| then Gap(lines, covered, |lines|) else []
  {
  }

  /** The segment loop of `_merge_siblings`. */
  method BuildSegments(chunks: seq<Chunk>, lines: seq<string>, gaps: bool) returns (segments: seq<Segment>)
    requires AllInFile(chunks, lines)
    ensures segments == Segments(chunks, lines, 0, gaps)
  {
    hide Segments, Gap, Originals;
    segments := [];
    var covered: nat := 0;
    for i := 0 to |chunks|
      invariant covered <= |lines|
      invariant segments + Segments(chunks[i..], lines, covered, gaps) == Segments(chunks, lines, 0, gaps)
    {
      var c := chunks[i];
      SegmentStep(chunks, lines, i, covered, gaps, segments);
      if gaps && covered < c.start - 1 {
        segments := segments + Gap(lines, covered, c.start - 1);
      }
      segments := segments + [ChunkSegment(c)];
      covered := Max(covered, c.end);
    }
    assert chunks[|chunks|..] == [];
    LastSegment(lines, covered, gaps);
    if gaps && covered < |lines| {
      segments := segments + Gap(lines, covered, |lines|);
    }
  }

  /** The packing loop of `_merge_siblings`. */
  method PackSegments(segments: seq<Segment>, lines: seq<string>, maxNws: nat) returns (groups: seq<seq<Segment>>)
    requires segments != [] && SegmentsInFile(segments, lines)
    ensures groups == Pack([segments[0]], segments[1..], lines, maxNws)
  {
    groups := [];
    var current := [segments[0]];
    var currentNws := NwsCount(segments[0].content);
    var groupMaxEnd := segments[0].end;
    assert current[..0] == [];
    for i := 1 to |segments|
      invariant current != [] && currentNws == GroupNws(current) && groupMaxEnd == MaxEnd(current)
      invariant SegmentsInFile(current, lines)
      invariant groups + Pack(current, segments[i..], lines, maxNws)
             == Pack([segments[0]], segments[1..], lines, maxNws)
    {
      var s := segments[i];
      assert segments[i..][0] == s && segments[i..][1..] == segments[i + 1..];
      MaxEndBounds(current, lines);
      var holeHasContent := HoleHasContent(groupMaxEnd, s, lines);
      var combined := currentNws + NwsCount(s.content);
      if combined <= maxNws && !holeHasContent {
        assert (current + [s])[..|current|] == current;
        current := current + [s];
        currentNws := combined;
      } else {
        groups := groups + [current];
        current := [s];
        assert current[..0] == [];
        currentNws := NwsCount(s.content);
        groupMaxEnd := 0;
      }
      groupMaxEnd := Max(groupMaxEnd, s.end);
    }
    groups := groups + [current];
  }

  /** The emission loop of `_merge_siblings`. */
  method EmitGroups(groups: seq<seq<Segment>>, lines: seq<string>) returns (result: seq<Chunk>)
    requires forall i | 0 <= i < |groups| :: groups[i] != [] && SegmentsInFile(groups[i], lines)
    ensures result == EmitAll(groups, lines)
  {
    result := [];
    for i := 0 to |groups|
      invariant |result| == i && forall k | 0 <= k < i :: result[k] == Emit(groups[k], lines)
    {
      result := result + [Emit(groups[i], lines)];
    }
  }

  /** `_merge_siblings`. */
  method MergeSiblings(chunks: seq<Chunk>, lines: seq<string>, gaps: bool, maxNws: nat) returns (result: seq<Chunk>)
    requires AllInFile(chunks, lines) && SortedByStart(chunks)
    ensures result == MergeLevel(chunks, lines, gaps, maxNws)
  {
    var segments := BuildSegments(chunks, lines, gaps);
    GroupFacts(chunks, lines, gaps, maxNws);
    if segments == [] {
      SegmentsKeepChunks(chunks, lines, 0, gaps);
      return chunks;
    }
    SegmentsAreGenuine(chunks, lines, 0, gaps);
    var groups := PackSegments(segments, lines, maxNws);
    result := EmitGroups(groups, lines);
  }

  lemma ChildlessLevel(cs: seq<Chunk>, lines: seq<string>, n: nat, maxNws: nat)
    requires AllInFile(cs, lines) && Sorted(cs) && n < |cs|
    ensures Children(cs, Some(n)) == [] ==> Outputs(cs, lines, Some(n), maxNws) == []
  {
    assert Children(cs, Some(n)) == [] ==> Level(cs, Some(n)) == [];
  }

  /** `emit_level`: the level itself, then the levels below its nodes. */
  method EmitLevel(cs: seq<Chunk>, lines: seq<string>, children: seq<seq<nat>>, p: Option<nat>, nodes: seq<nat>,
                   maxNws: nat)
    returns (result: seq<Chunk>)
    requires AllInFile(cs, lines) && Sorted(cs)
    requires |children| == |cs| && forall n | 0 <= n < |cs| :: children[n] == Children(cs, Some(n))
    requires nodes == Children(cs, p)
    ensures result == Outputs(cs, lines, p, maxNws)
    decreases Rank(cs, p), 1
  {
    LevelIsSorted(cs, p);
    result := MergeSiblings(Pick(cs, nodes), lines, p.None?, maxNws);
    var below := EmitBelow(cs, lines, children, p, nodes, maxNws);
    result := result + below;
  }

  method EmitBelow(cs: seq<Chunk>, lines: seq<string>, children: seq<seq<nat>>, p: Option<nat>, nodes: seq<nat>,
                   maxNws: nat)
    returns (result: seq<Chunk>)
    requires AllInFile(cs, lines) && Sorted(cs)
    requires |children| == |cs| && forall n | 0 <= n < |cs| :: children[n] == Children(cs, Some(n))
    requires StackIn(nodes, |cs|) && forall k | 0 <= k < |nodes| :: Parent(cs, nodes[k]) == p
    ensures result == OutputsBelow(cs, lines, p, nodes, maxNws)
    decreases Rank(cs, p), 0
  {
    hide Outputs, OutputsBelow, Children, Parent, Rank, Sorted, AllInFile;
    result := [];
    NothingBelow(cs, lines, p, maxNws);
    for i := 0 to |nodes|
      invariant result == OutputsBelow(cs, lines, p, nodes[..i], maxNws)
    {
      var n := nodes[i];
      BelowGrows(cs, lines, p, nodes[..i], n, maxNws);
      assert nodes[..i] + [n] == nodes[..i + 1];
      ChildlessLevel(cs, lines, n, maxNws);
      if children[n] != [] {
        var outputs := EmitLevel(cs, lines, children, Some(n), children[n], maxNws);
        result := result + outputs;
      }
    }
    assert nodes[..|nodes|] == nodes;
  }

  lemma NothingBelow(cs: seq<Chunk>, lines: seq<string>, p: Option<nat>, maxNws: nat)
    requires AllInFile(cs, lines) && Sorted(cs)
    ensures OutputsBelow(cs, lines, p, [], maxNws) == []
  {
  }

  lemma BelowGrows(cs: seq<Chunk>, lines: seq<string>, p: Option<nat>, nodes: seq<nat>, n: nat, maxNws: nat)
    requires AllInFile(cs, lines) && Sorted(cs)
    requires StackIn(nodes, |cs|) && forall k | 0 <= k < |nodes| :: Parent(cs, nodes[k]) == p
    requires n < |cs| && Parent(cs, n) == p
    ensures StackIn(nodes + [n], |cs|) && forall k | 0 <= k <= |nodes| :: Parent(cs, (nodes + [n])[k]) == p
    ensures OutputsBelow(cs, lines, p, nodes + [n], maxNws) ==
            OutputsBelow(cs, lines, p, nodes, maxNws) + Outputs(cs, lines, Some(n), maxNws)
    ensures Rank(cs, Some(n)) < Rank(cs, p)
  {
    assert (nodes + [n])[..|nodes|] == nodes;
  }

  lemma EmptyFileHasNoOutputs(source: string, maxNws: nat)
    requires Blank(source)
    ensures AllInFile([], Split(source)) && Sorted([])
    ensures Outputs([], Split(source), None, maxNws) == []
  {
    var lines := Split(source);
    SplitJoin(source);
    assert lines[0..|lines|] == lines;
    assert Level([], None) == [];
  }

  // ---------------------------------------------------------------------------
  // The whole file
  // ---------------------------------------------------------------------------

  ghost predicate LineCovered(result: seq<Chunk>, line: nat) {
    exists o :: o in result && CoversLine(o, line)
  }

  /** The chunk lies inside an output that its own level contributes. */
  ghost predicate Emitted(result: seq<Chunk>, cs: seq<Chunk>, lines: seq<string>, maxNws: nat, i: nat)
    requires AllInFile(cs, lines) && Sorted(cs) && i < |cs|
  {
    exists o :: o in result && o in LevelOutputs(cs, lines, Parent(cs, i), maxNws) && Within(cs[i], o)
  }

  /** `merge_file_chunks`.  The outputs are those of all levels, each level once, so that every chunk is in an
      output of its own level.  Every contentful source line is in the range of some output,
      every output is the exact text of its lines or one of the chunks, and for
      tree-sitter input any two outputs are nested or disjoint.  When the chunks weigh what their lines weigh, an
      output over the budget is a chunk or a lone gap, and line-disjoint chunks give few outputs. */
  method MergeFileChunks(chunks: seq<Chunk>, source: string, maxNws: nat) returns (result: seq<Chunk>)
    requires AllInFile(chunks, Split(source))
    ensures forall i, j | 0 <= i < j < |result| ::
              result[i].start < result[j].start
              || (result[i].start == result[j].start && result[i].end <= result[j].end)
    ensures AllInFile(SortedChunks(chunks), Split(source))
    ensures result == Sort(NarrowerFirst, Outputs(SortedChunks(chunks), Split(source), None, maxNws))
    ensures multiset(result) == AllLevels(SortedChunks(chunks), Split(source), maxNws, |SortedChunks(chunks)|)
    ensures forall i | 0 <= i < |SortedChunks(chunks)| ::
              Emitted(result, SortedChunks(chunks), Split(source), maxNws, i)
    ensures forall k | 0 <= k < |Split(source)| && !Blank(Split(source)[k]) :: LineCovered(result, k + 1)
    ensures forall o | o in result ::
              InFile(o, Split(source)) && (o.content == Span(Split(source), o.start - 1, o.end) || o in chunks)
    ensures Laminar(SortedChunks(chunks)) ==> forall a, b | a in result && b in result :: NestedOrDisjoint(a, b)
    ensures AllAligned(SortedChunks(chunks), Split(source)) ==> forall o | o in result ::
              NwsCount(o.content) <= maxNws || o in chunks
              || LoneGap(Level(SortedChunks(chunks), None), Split(source), o)
    ensures AllAligned(SortedChunks(chunks), Split(source)) && Disjoint(SortedChunks(chunks)) ==>
              |result| <= 2 * (NwsCount(source) / (maxNws + 1)) + 1
  {
    var lines := Split(source);
    SplitJoin(source);
    var cs := SortedChunks(chunks);
    PermutationInFile(chunks, cs, lines);
    if chunks == [] && Blank(source) {
      EmptyFileHasNoOutputs(source, maxNws);
      assert cs == [];
      result := [];
    } else {
      var children, roots := BuildForest(cs);
      var outputs := EmitLevel(cs, lines, children, None, roots, maxNws);
      SortFacts(NarrowerFirst, outputs);
      result := Sort(NarrowerFirst, outputs);
    }
    FileIsAllLevels(cs, lines, maxNws);
    EveryChunkEmitted(cs, lines, maxNws, result);
    WholeFile(chunks, cs, lines, maxNws, result);
    if AllAligned(cs, lines) {
      WholeFileBudget(chunks, cs, lines, maxNws, result);
    }
  }

  ghost predicate AllAligned(cs: seq<Chunk>, lines: seq<string>)
    requires AllInFile(cs, lines)
  {
    forall i | 0 <= i < |cs| :: Aligned(cs[i], lines)
  }

  lemma WholeFileBudget(chunks: seq<Chunk>, cs: seq<Chunk>, lines: seq<string>, maxNws: nat, result: seq<Chunk>)
    requires AllInFile(cs, lines) && Sorted(cs) && multiset(cs) == multiset(chunks) && AllAligned(cs, lines)
    requires multiset(result) == multiset(Outputs(cs, lines, None, maxNws))
    ensures forall o | o in result ::
              NwsCount(o.content) <= maxNws || o in chunks || LoneGap(Level(cs, None), lines, o)
    ensures Disjoint(cs) ==> |result| <= 2 * (NwsCount(Join(lines)) / (maxNws + 1)) + 1
  {
    forall o | o in result
      ensures NwsCount(o.content) <= maxNws || o in chunks || LoneGap(Level(cs, None), lines, o)
    {
      SameMembers(result, Outputs(cs, lines, None, maxNws), o);
      OutputsWithinBudget(cs, lines, None, maxNws, o);
      SameMembers(cs, chunks, o);
    }
    assert |result| == |multiset(result)| == |Outputs(cs, lines, None, maxNws)|;
    if Disjoint(cs) {
      OutputCount(cs, lines, maxNws);
    }
  }

  lemma SameMembers(a: seq<Chunk>, b: seq<Chunk>, o: Chunk)
    requires multiset(a) == multiset(b)
    ensures o in a <==> o in b
  {
    assert o in multiset(a) <==> o in multiset(b);
  }

  lemma EveryChunkEmitted(cs: seq<Chunk>, lines: seq<string>, maxNws: nat, result: seq<Chunk>)
    requires AllInFile(cs, lines) && Sorted(cs)
    requires multiset(result) == multiset(Outputs(cs, lines, None, maxNws))
    ensures forall i | 0 <= i < |cs| :: Emitted(result, cs, lines, maxNws, i)
  {
    forall i | 0 <= i < |cs| ensures Emitted(result, cs, lines, maxNws, i) {
      var o := ChunkIsEmitted(cs, lines, maxNws, i);
      SameMembers(result, Outputs(cs, lines, None, maxNws), o);
    }
  }

  lemma LineIsCovered(cs: seq<Chunk>, lines: seq<string>, maxNws: nat, result: seq<Chunk>, k: nat)
    requires AllInFile(cs, lines) && Sorted(cs)
    requires multiset(result) == multiset(Outputs(cs, lines, None, maxNws))
    requires k < |lines| && !Blank(lines[k])
    ensures LineCovered(result, k + 1)
  {
    var o := FileIsCovered(cs, lines, maxNws, k + 1);
    SameMembers(result, Outputs(cs, lines, None, maxNws), o);
  }

  lemma WholeFile(chunks: seq<Chunk>, cs: seq<Chunk>, lines: seq<string>, maxNws: nat, result: seq<Chunk>)
    requires AllInFile(cs, lines) && Sorted(cs) && multiset(cs) == multiset(chunks)
    requires multiset(result) == multiset(Outputs(cs, lines, None, maxNws))
    ensures forall k | 0 <= k < |lines| && !Blank(lines[k]) :: LineCovered(result, k + 1)
    ensures forall o | o in result ::
              InFile(o, lines) && (o.content == Span(lines, o.start - 1, o.end) || o in chunks)
    ensures Laminar(cs) ==> forall a, b | a in result && b in result :: NestedOrDisjoint(a, b)
  {
    forall k | 0 <= k < |lines| && !Blank(lines[k]) ensures LineCovered(result, k + 1) {
      LineIsCovered(cs, lines, maxNws, result, k);
    }
    forall o | o in result
      ensures InFile(o, lines) && (o.content == Span(lines, o.start - 1, o.end) || o in chunks)
    {
      SameMembers(result, Outputs(cs, lines, None, maxNws), o);
      OutputsAreFaithful(cs, lines, None, maxNws, o);
      SameMembers(cs, chunks, o);
    }
    if Laminar(cs) {
      forall a, b | a in result && b in result ensures NestedOrDisjoint(a, b) {
        SameMembers(result, Outputs(cs, lines, None, maxNws), a);
        SameMembers(result, Outputs(cs, lines, None, maxNws), b);
        OutputsAreLaminar(cs, lines, None, maxNws, a, b);
      }
    }
  }
}
