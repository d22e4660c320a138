/** What merging one level guarantees: fidelity, coverage, budget and output count. */
module ChunkLevelProperties {
  import opened Wrappers
  import opened SourceText
  import opened ChunkLevel

  /** Emit every group of a level. */
  function EmitAll(groups: seq<seq<Segment>>, lines: seq<string>): (r: seq<Chunk>)
    requires forall i | 0 <= i < |groups| :: groups[i] != [] && SegmentsInFile(groups[i], lines)
    ensures |r| == |groups| && forall i | 0 <= i < |r| :: r[i] == Emit(groups[i], lines)
  {
    if groups == [] then [] else [Emit(groups[0], lines)] + EmitAll(groups[1..], lines)
  }

  /** `_merge_siblings` as a function.  Only the root level captures gaps, and its region
      is the whole file. */
  function MergeLevel(chunks: seq<Chunk>, lines: seq<string>, gaps: bool, maxNws: nat): (r: seq<Chunk>)
    requires AllInFile(chunks, lines) && SortedByStart(chunks)
    ensures |r| == |Groups(chunks, lines, gaps, maxNws)|
  {
    GroupFacts(chunks, lines, gaps, maxNws);
    EmitAll(Groups(chunks, lines, gaps, maxNws), lines)
  }

  // ---------------------------------------------------------------------------
  // One group
  // ---------------------------------------------------------------------------

  /** No contentful hole inside the group. */
  ghost predicate Whole(group: seq<Segment>, lines: seq<string>) {
    forall k | 1 <= k < |group| :: !HoleHasContent(MaxEnd(group[..k]), group[k], lines)
  }

  lemma WholePrefix(group: seq<Segment>, lines: seq<string>)
    requires group != [] && Whole(group, lines)
    ensures Whole(group[..|group| - 1], lines)
  {
    var less := group[..|group| - 1];
    forall k | 1 <= k < |less| ensures !HoleHasContent(MaxEnd(less[..k]), less[k], lines) {
      assert less[..k] == group[..k];
    }
  }

  /** An output starts where its first segment does, and reaches over all of them. */
  lemma EmitReaches(group: seq<Segment>, lines: seq<string>)
    requires group != [] && Genuine(group, lines) && SegmentsSorted(group)
    ensures var o := Emit(group, lines);
            && InFile(o, lines) && o.start == group[0].start && o.end == MaxEnd(group)
            && forall k | 0 <= k < |group| :: o.start <= group[k].start && group[k].end <= o.end
  {
    hide Span, MergedTitle;
    MaxEndBounds(group, lines);
    if |group| == 1 {
      assert group[..0] == [];
    }
  }

  /** The text of an output is its source lines, unless it is a lone chunk handed back. */
  lemma EmitIsFaithful(group: seq<Segment>, lines: seq<string>)
    requires group != [] && Genuine(group, lines) && SegmentsSorted(group)
    ensures var o := Emit(group, lines);
            InFile(o, lines) &&
            (o.content == Span(lines, o.start - 1, o.end) || (|group| == 1 && group[0].original == Some(o)))
  {
    EmitReaches(group, lines);
  }

  ghost predicate CoveredBy(segments: seq<Segment>, line: nat) {
    exists k :: 0 <= k < |segments| && Covers(segments[k], line)
  }

  /** A line spanned by a whole group lies in one of its segments or is blank. */
  lemma {:induction false} SpannedLines(group: seq<Segment>, lines: seq<string>, line: nat)
    requires group != [] && SegmentsInFile(group, lines) && SegmentsSorted(group) && Whole(group, lines)
    requires group[0].start <= line <= MaxEnd(group) && line <= |lines|
    ensures Blank(lines[line - 1]) || CoveredBy(group, line)
  {
    var less, last := group[..|group| - 1], group[|group| - 1];
    if less != [] && line <= MaxEnd(less) {
      WholePrefix(group, lines);
      SpannedLines(less, lines, line);
      if k :| 0 <= k < |less| && Covers(less[k], line) {
        assert Covers(group[k], line);
      }
    } else if line < last.start {
      assert group[..|group| - 1] == less && !HoleHasContent(MaxEnd(less), last, lines);
      BlankSpan(lines, MaxEnd(less), last.start - 1);
    } else {
      assert Covers(last, line);
    }
  }

  ghost predicate AlignedSegments(segments: seq<Segment>, lines: seq<string>)
    requires SegmentsInFile(segments, lines)
  {
    forall i | 0 <= i < |segments| ::
      NwsCount(segments[i].content) == SpanWeight(lines, segments[i].start - 1, segments[i].end)
  }

  /** Extending a span over one more segment, with nothing but blank lines between. */
  lemma SpanExtends(lines: seq<string>, lo: nat, reach: nat, s: Segment)
    requires lo <= reach <= |lines| && SegmentInFile(s, lines) && lo <= s.start - 1
    requires !HoleHasContent(reach, s, lines)
    ensures SpanWeight(lines, lo, Max(reach, s.end))
            <= SpanWeight(lines, lo, reach) + SpanWeight(lines, s.start - 1, s.end)
  {
    if s.end > reach {
      SpanSplits(lines, lo, reach, s.end);
      if s.start - 1 <= reach {
        SpanSplits(lines, s.start - 1, reach, s.end);
      } else {
        SpanSplits(lines, reach, s.start - 1, s.end);
        BlankSpan(lines, reach, s.start - 1);
      }
    }
  }

  /** The lines a whole group spans weigh no more than its segments together, overlapping
      or not. */
  lemma {:induction false} SpanWithinGroupNws(group: seq<Segment>, lines: seq<string>)
    requires group != [] && SegmentsInFile(group, lines) && SegmentsSorted(group) && Whole(group, lines)
    requires AlignedSegments(group, lines)
    ensures group[0].start - 1 <= MaxEnd(group) <= |lines|
    ensures SpanWeight(lines, group[0].start - 1, MaxEnd(group)) <= GroupNws(group)
  {
    hide SpanWeight, NwsCount, HoleHasContent;
    var last := group[|group| - 1];
    if |group| == 1 {
      assert group[..0] == [] && MaxEnd([]) == 0 && GroupNws([]) == 0;
    } else {
      SpanPrefix(group, lines);
      SpanWithinGroupNws(group[..|group| - 1], lines);
      SpanExtends(lines, group[0].start - 1, MaxEnd(group[..|group| - 1]), last);
    }
  }

  lemma SpanPrefix(group: seq<Segment>, lines: seq<string>)
    requires |group| >= 2 && SegmentsInFile(group, lines) && SegmentsSorted(group) && Whole(group, lines)
    requires AlignedSegments(group, lines)
    ensures var less := group[..|group| - 1];
            && SegmentsInFile(less, lines) && SegmentsSorted(less) && Whole(less, lines) && AlignedSegments(less, lines)
            && !HoleHasContent(MaxEnd(less), group[|group| - 1], lines)
  {
    WholePrefix(group, lines);
  }

  /** The budget: every merged output of two or more segments is within `maxNws`. */
  lemma EmitWithinBudget(group: seq<Segment>, lines: seq<string>, maxNws: nat)
    requires Packed(group, lines, maxNws) && Genuine(group, lines) && SegmentsSorted(group)
    requires AlignedSegments(group, lines) && |group| >= 2
    ensures NwsCount(Emit(group, lines).content) <= maxNws
  {
    assert Whole(group, lines);
    SpanWithinGroupNws(group, lines);
    EmitReaches(group, lines);
    SpanWeightIsNws(lines, group[0].start - 1, MaxEnd(group));
  }

  lemma {:induction false} SegmentsAreAligned(chunks: seq<Chunk>, lines: seq<string>, covered: nat, gaps: bool)
    requires AllInFile(chunks, lines) && covered <= |lines|
    requires forall i | 0 <= i < |chunks| :: Aligned(chunks[i], lines)
    ensures SegmentsInFile(Segments(chunks, lines, covered, gaps), lines)
    ensures AlignedSegments(Segments(chunks, lines, covered, gaps), lines)
    decreases chunks
  {
    if chunks == [] {
      GapIsAligned(lines, covered, |lines|);
    } else {
      var c := chunks[0];
      if covered < c.start - 1 {
        GapIsAligned(lines, covered, c.start - 1);
      }
      SegmentsAreAligned(chunks[1..], lines, Max(covered, c.end), gaps);
      var head := GapBefore(c, lines, covered, gaps) + [ChunkSegment(c)];
      assert SegmentsInFile(head, lines) && AlignedSegments(head, lines);
      var tail := Segments(chunks[1..], lines, Max(covered, c.end), gaps);
      AlignedTogether(head, tail, lines);
    }
  }

  lemma AlignedTogether(a: seq<Segment>, b: seq<Segment>, lines: seq<string>)
    requires SegmentsInFile(a, lines) && AlignedSegments(a, lines)
    requires SegmentsInFile(b, lines) && AlignedSegments(b, lines)
    ensures SegmentsInFile(a + b, lines) && AlignedSegments(a + b, lines)
  {
  }

  lemma GapIsAligned(lines: seq<string>, lo: nat, hi: nat)
    requires lo <= hi <= |lines|
    ensures SegmentsInFile(Gap(lines, lo, hi), lines) && AlignedSegments(Gap(lines, lo, hi), lines)
  {
    SpanWeightIsNws(lines, lo, hi);
  }

  // ---------------------------------------------------------------------------
  // One level
  // ---------------------------------------------------------------------------

  predicate CoversLine(c: Chunk, line: nat) {
    c.start <= line <= c.end
  }

  predicate Within(inner: Chunk, outer: Chunk) {
    outer.start <= inner.start && inner.end <= outer.end
  }

  /** Every segment of a level lies in exactly one group's output range. */
  lemma SegmentInOutput(chunks: seq<Chunk>, lines: seq<string>, gaps: bool, maxNws: nat, k: nat) returns (i: nat)
    requires AllInFile(chunks, lines) && SortedByStart(chunks)
    requires k < |Segments(chunks, lines, 0, gaps)|
    ensures var o := MergeLevel(chunks, lines, gaps, maxNws);
            var s := Segments(chunks, lines, 0, gaps)[k];
            i < |o| && o[i].start <= s.start && s.end <= o[i].end
  {
    var groups := Groups(chunks, lines, gaps, maxNws);
    GroupFacts(chunks, lines, gaps, maxNws);
    var j;
    i, j := FlattenHas(groups, k);
    EmitReaches(groups[i], lines);
  }

  /** At the root level every contentful line lies in some output, whatever the chunks. */
  lemma LevelCoversFile(chunks: seq<Chunk>, lines: seq<string>, maxNws: nat, line: nat) returns (i: nat)
    requires AllInFile(chunks, lines) && SortedByStart(chunks)
    requires 1 <= line <= |lines| && !Blank(lines[line - 1])
    ensures i < |MergeLevel(chunks, lines, true, maxNws)|
    ensures CoversLine(MergeLevel(chunks, lines, true, maxNws)[i], line)
  {
    var k := SegmentsCover(chunks, lines, 0, line);
    i := SegmentInOutput(chunks, lines, true, maxNws, k);
  }

  ghost predicate GoodGroup(group: seq<Segment>, lines: seq<string>, maxNws: nat) {
    Packed(group, lines, maxNws) && Genuine(group, lines) && SegmentsSorted(group)
  }

  lemma GroupsAreGood(chunks: seq<Chunk>, lines: seq<string>, gaps: bool, maxNws: nat, i: nat)
    requires AllInFile(chunks, lines) && SortedByStart(chunks)
    requires i < |MergeLevel(chunks, lines, gaps, maxNws)|
    ensures GoodGroup(Groups(chunks, lines, gaps, maxNws)[i], lines, maxNws)
    ensures MergeLevel(chunks, lines, gaps, maxNws)[i] == Emit(Groups(chunks, lines, gaps, maxNws)[i], lines)
    ensures Flatten(Groups(chunks, lines, gaps, maxNws)) == Segments(chunks, lines, 0, gaps)
  {
    GroupFacts(chunks, lines, gaps, maxNws);
  }

  /** Fidelity: each output is the exact text of the lines it covers, or one of the
      level's chunks handed back as it came. */
  lemma LevelIsFaithful(chunks: seq<Chunk>, lines: seq<string>, gaps: bool, maxNws: nat, i: nat)
    requires AllInFile(chunks, lines) && SortedByStart(chunks)
    requires i < |MergeLevel(chunks, lines, gaps, maxNws)|
    ensures var o := MergeLevel(chunks, lines, gaps, maxNws)[i];
            InFile(o, lines) && (o.content == Span(lines, o.start - 1, o.end) || o in chunks)
  {
    GroupsAreGood(chunks, lines, gaps, maxNws, i);
    var groups := Groups(chunks, lines, gaps, maxNws);
    EmitIsFaithful(groups[i], lines);
    GroupIsSlice(groups, i);
    if |groups[i]| == 1 && groups[i][0].original.Some? {
      SegmentsKeepChunks(chunks, lines, 0, gaps);
      OriginalIsChunk(Segments(chunks, lines, 0, gaps), |Flatten(groups[..i])|);
    }
  }

  lemma OutputIsFaithful(chunks: seq<Chunk>, lines: seq<string>, gaps: bool, maxNws: nat, o: Chunk)
    requires AllInFile(chunks, lines) && SortedByStart(chunks)
    requires o in MergeLevel(chunks, lines, gaps, maxNws)
    ensures InFile(o, lines) && (o.content == Span(lines, o.start - 1, o.end) || o in chunks)
  {
    var outputs := MergeLevel(chunks, lines, gaps, maxNws);
    var i :| 0 <= i < |outputs| && outputs[i] == o;
    LevelIsFaithful(chunks, lines, gaps, maxNws, i);
  }

  /** Budget: an output merged from two or more segments of aligned chunks is within
      `maxNws`, even when the chunks overlap. */
  lemma LevelWithinBudget(chunks: seq<Chunk>, lines: seq<string>, gaps: bool, maxNws: nat, i: nat)
    requires AllInFile(chunks, lines) && SortedByStart(chunks)
    requires forall k | 0 <= k < |chunks| :: Aligned(chunks[k], lines)
    requires i < |MergeLevel(chunks, lines, gaps, maxNws)|
    requires |Groups(chunks, lines, gaps, maxNws)[i]| >= 2
    ensures NwsCount(MergeLevel(chunks, lines, gaps, maxNws)[i].content) <= maxNws
  {
    GroupsAreGood(chunks, lines, gaps, maxNws, i);
    GroupIsSlice(Groups(chunks, lines, gaps, maxNws), i);
    SegmentsAreAligned(chunks, lines, 0, gaps);
    EmitWithinBudget(Groups(chunks, lines, gaps, maxNws)[i], lines, maxNws);
  }

  /** The output is one captured gap of the level, packed with nothing else. */
  ghost predicate LoneGap(chunks: seq<Chunk>, lines: seq<string>, o: Chunk)
    requires AllInFile(chunks, lines)
  {
    exists k :: 0 <= k < |Segments(chunks, lines, 0, true)| && IsGapAt(Segments(chunks, lines, 0, true)[k], o)
  }

  predicate IsGapAt(s: Segment, o: Chunk) {
    s.original.None? && o.start == s.start && o.end == s.end
  }

  lemma {:induction false} NoGaps(chunks: seq<Chunk>, lines: seq<string>, covered: nat, k: nat)
    requires AllInFile(chunks, lines) && covered <= |lines| && k < |Segments(chunks, lines, covered, false)|
    ensures Segments(chunks, lines, covered, false)[k].original.Some?
    decreases chunks
  {
    if k > 0 {
      NoGaps(chunks[1..], lines, Max(covered, chunks[0].end), k - 1);
    }
  }

  /** A group of one segment is a chunk of the level or a lone gap. */
  lemma SingleOutput(chunks: seq<Chunk>, lines: seq<string>, gaps: bool, maxNws: nat, i: nat)
    requires AllInFile(chunks, lines) && SortedByStart(chunks)
    requires i < |MergeLevel(chunks, lines, gaps, maxNws)| && |Groups(chunks, lines, gaps, maxNws)[i]| == 1
    ensures var o := MergeLevel(chunks, lines, gaps, maxNws)[i];
            o in chunks || (gaps && LoneGap(chunks, lines, o))
  {
    hide Aligned, MergeLevel, Groups, Greedy;
    var group := Groups(chunks, lines, gaps, maxNws)[i];
    var k := |Flatten(Groups(chunks, lines, gaps, maxNws)[..i])|;
    GroupsAreGood(chunks, lines, gaps, maxNws, i);
    GroupIsSlice(Groups(chunks, lines, gaps, maxNws), i);
    var s := Segments(chunks, lines, 0, gaps)[k];
    assert s == group[0];
    if s.original.Some? {
      SegmentsKeepChunks(chunks, lines, 0, gaps);
      OriginalIsChunk(Segments(chunks, lines, 0, gaps), k);
    } else {
      if !gaps { NoGaps(chunks, lines, 0, k); }
      assert group == [s] && MaxEnd(group) == Max(MaxEnd(group[..0]), s.end);
      assert IsGapAt(s, Emit(group, lines));
    }
  }

  /** Budget of all outputs of a level: one that is too heavy is a chunk of the level or a lone gap. */
  lemma OutputWithinBudget(chunks: seq<Chunk>, lines: seq<string>, gaps: bool, maxNws: nat, o: Chunk)
    requires AllInFile(chunks, lines) && SortedByStart(chunks)
    requires forall k | 0 <= k < |chunks| :: Aligned(chunks[k], lines)
    requires o in MergeLevel(chunks, lines, gaps, maxNws)
    ensures NwsCount(o.content) <= maxNws || o in chunks || (gaps && LoneGap(chunks, lines, o))
  {
    var outputs, groups := MergeLevel(chunks, lines, gaps, maxNws), Groups(chunks, lines, gaps, maxNws);
    var i :| 0 <= i < |outputs| && outputs[i] == o;
    GroupsAreGood(chunks, lines, gaps, maxNws, i);
    if |groups[i]| >= 2 {
      LevelWithinBudget(chunks, lines, gaps, maxNws, i);
    } else {
      SingleOutput(chunks, lines, gaps, maxNws, i);
    }
  }

  /** No stray text: a line in an output's range lies in one of its segments or is blank. */
  lemma LevelSpansOnlyBlanks(chunks: seq<Chunk>, lines: seq<string>, gaps: bool, maxNws: nat, i: nat, line: nat)
    requires AllInFile(chunks, lines) && SortedByStart(chunks)
    requires i < |MergeLevel(chunks, lines, gaps, maxNws)|
    requires CoversLine(MergeLevel(chunks, lines, gaps, maxNws)[i], line)
    ensures 1 <= line <= |lines|
    ensures Blank(lines[line - 1]) || CoveredBy(Groups(chunks, lines, gaps, maxNws)[i], line)
  {
    GroupsAreGood(chunks, lines, gaps, maxNws, i);
    var group := Groups(chunks, lines, gaps, maxNws)[i];
    EmitReaches(group, lines);
    assert Whole(group, lines);
    SpannedLines(group, lines, line);
  }

  lemma {:induction false} OriginalIsChunk(segments: seq<Segment>, k: nat)
    requires k < |segments| && segments[k].original.Some?
    ensures segments[k].original.value in Originals(segments)
  {
    if k > 0 {
      OriginalIsChunk(segments[1..], k - 1);
    }
  }

  /** Every chunk of the level ends up in the groups exactly once, and inside an output. */
  lemma LevelKeepsChunks(chunks: seq<Chunk>, lines: seq<string>, gaps: bool, maxNws: nat)
    requires AllInFile(chunks, lines) && SortedByStart(chunks)
    ensures Originals(Flatten(Groups(chunks, lines, gaps, maxNws))) == chunks
    ensures forall c | c in chunks :: exists i ::
              0 <= i < |MergeLevel(chunks, lines, gaps, maxNws)|
              && Within(c, MergeLevel(chunks, lines, gaps, maxNws)[i])
  {
    GroupFacts(chunks, lines, gaps, maxNws);
    SegmentsKeepChunks(chunks, lines, 0, gaps);
    SegmentsAreGenuine(chunks, lines, 0, gaps);
    forall c | c in chunks
      ensures exists i ::
        0 <= i < |MergeLevel(chunks, lines, gaps, maxNws)| && Within(c, MergeLevel(chunks, lines, gaps, maxNws)[i])
    {
      var k := ChunkHasSegment(Segments(chunks, lines, 0, gaps), c);
      var i := SegmentInOutput(chunks, lines, gaps, maxNws, k);
    }
  }

  lemma {:induction false} ChunkHasSegment(segments: seq<Segment>, c: Chunk) returns (k: nat)
    requires c in Originals(segments)
    ensures k < |segments| && segments[k].original == Some(c)
  {
    if segments[0].original == Some(c) {
      k := 0;
    } else {
      k := ChunkHasSegment(segments[1..], c);
      k := k + 1;
    }
  }

  // ---------------------------------------------------------------------------
  // Disjoint siblings
  // ---------------------------------------------------------------------------

  ghost predicate Disjoint(chunks: seq<Chunk>) {
    forall i, j | 0 <= i < j < |chunks| :: chunks[i].end < chunks[j].start
  }

  ghost predicate SegmentsDisjoint(segments: seq<Segment>) {
    forall i, j | 0 <= i < j < |segments| :: segments[i].end < segments[j].start
  }

  lemma {:induction false} DisjointSegments(chunks: seq<Chunk>, lines: seq<string>, covered: nat, gaps: bool)
    requires AllInFile(chunks, lines) && covered <= |lines| && Disjoint(chunks)
    requires forall i | 0 <= i < |chunks| :: covered < chunks[i].start
    ensures var segments := Segments(chunks, lines, covered, gaps);
            SegmentsDisjoint(segments) && forall i | 0 <= i < |segments| :: covered < segments[i].start
    decreases chunks
  {
    if chunks != [] {
      var c, rest := chunks[0], chunks[1..];
      DisjointSegments(rest, lines, c.end, gaps);
      var before := GapBefore(c, lines, covered, gaps);
      var after := Segments(rest, lines, c.end, gaps);
      assert Segments(chunks, lines, covered, gaps) == before + [ChunkSegment(c)] + after;
    }
  }

  lemma {:induction false} DisjointMaxEnd(group: seq<Segment>)
    requires group != [] && SegmentsDisjoint(group)
    requires forall i | 0 <= i < |group| :: group[i].start <= group[i].end
    ensures MaxEnd(group) == group[|group| - 1].end
  {
    if |group| > 1 {
      DisjointMaxEnd(group[..|group| - 1]);
    } else {
      assert group[..0] == [];
    }
  }

  lemma GroupsApart(groups: seq<seq<Segment>>, i: nat, j: nat)
    requires i < j < |groups| && SegmentsDisjoint(Flatten(groups))
    requires groups[i] != [] && groups[j] != []
    requires forall k | 0 <= k < |groups[i]| :: groups[i][k].start <= groups[i][k].end
    ensures SegmentsDisjoint(groups[i])
    ensures MaxEnd(groups[i]) == groups[i][|groups[i]| - 1].end < groups[j][0].start
  {
    GroupIsSlice(groups, i);
    GroupIsSlice(groups, j);
    FlattenOrder(groups, i, j);
    DisjointMaxEnd(groups[i]);
  }

  /** Outputs of disjoint siblings are disjoint, in order. */
  lemma LevelStaysDisjoint(chunks: seq<Chunk>, lines: seq<string>, gaps: bool, maxNws: nat)
    requires AllInFile(chunks, lines) && Disjoint(chunks)
    ensures SortedByStart(chunks)
    ensures Disjoint(MergeLevel(chunks, lines, gaps, maxNws))
  {
    var groups := Groups(chunks, lines, gaps, maxNws);
    GroupFacts(chunks, lines, gaps, maxNws);
    DisjointSegments(chunks, lines, 0, gaps);
    forall i, j | 0 <= i < j < |groups|
      ensures Emit(groups[i], lines).end < Emit(groups[j], lines).start
    {
      GroupsAreGood(chunks, lines, gaps, maxNws, i);
      GroupsAreGood(chunks, lines, gaps, maxNws, j);
      GroupsApart(groups, i, j);
      EmitReaches(groups[i], lines);
      EmitReaches(groups[j], lines);
    }
  }

  lemma TwoOutputs(chunks: seq<Chunk>, lines: seq<string>, gaps: bool, maxNws: nat, a: Chunk, b: Chunk)
    requires AllInFile(chunks, lines) && SortedByStart(chunks) && Disjoint(chunks)
    requires a in MergeLevel(chunks, lines, gaps, maxNws) && b in MergeLevel(chunks, lines, gaps, maxNws)
    ensures a == b || a.end < b.start || b.end < a.start
  {
    var outputs := MergeLevel(chunks, lines, gaps, maxNws);
    LevelStaysDisjoint(chunks, lines, gaps, maxNws);
    var i :| 0 <= i < |outputs| && outputs[i] == a;
    var j :| 0 <= j < |outputs| && outputs[j] == b;
  }

  /** A chunk lies inside one output of its level and apart from the others. */
  lemma ChunkVersusOutput(chunks: seq<Chunk>, lines: seq<string>, gaps: bool, maxNws: nat, c: Chunk, o: Chunk)
    requires AllInFile(chunks, lines) && SortedByStart(chunks) && Disjoint(chunks)
    requires c in chunks && o in MergeLevel(chunks, lines, gaps, maxNws)
    ensures Within(c, o) || c.end < o.start || o.end < c.start
  {
    var outputs := MergeLevel(chunks, lines, gaps, maxNws);
    LevelStaysDisjoint(chunks, lines, gaps, maxNws);
    LevelKeepsChunks(chunks, lines, gaps, maxNws);
    var i :| 0 <= i < |outputs| && Within(c, outputs[i]);
    var j :| 0 <= j < |outputs| && outputs[j] == o;
  }

  lemma {:induction false} SegmentsComeFromChunks(chunks: seq<Chunk>, lines: seq<string>, covered: nat)
    requires AllInFile(chunks, lines) && covered <= |lines|
    ensures var segments := Segments(chunks, lines, covered, false);
            |segments| == |chunks| && forall k | 0 <= k < |chunks| :: segments[k] == ChunkSegment(chunks[k])
    decreases chunks
  {
    if chunks != [] {
      SegmentsComeFromChunks(chunks[1..], lines, Max(covered, chunks[0].end));
    }
  }

  /** Without gap capture an output stays between the bounds of its level's chunks. */
  lemma LevelInside(chunks: seq<Chunk>, lines: seq<string>, maxNws: nat, i: nat, outer: Chunk)
    requires AllInFile(chunks, lines) && SortedByStart(chunks)
    requires forall k | 0 <= k < |chunks| :: Within(chunks[k], outer)
    requires i < |MergeLevel(chunks, lines, false, maxNws)|
    ensures Within(MergeLevel(chunks, lines, false, maxNws)[i], outer)
  {
    hide Segments, Pack, Groups, Flatten, EmitAll, MergeLevel, Emit;
    GroupsAreGood(chunks, lines, false, maxNws, i);
    SegmentsComeFromChunks(chunks, lines, 0);
    var group := Groups(chunks, lines, false, maxNws)[i];
    GroupIsSlice(Groups(chunks, lines, false, maxNws), i);
    assert forall k | 0 <= k < |group| :: outer.start <= group[k].start && group[k].end <= outer.end;
    EmitReaches(group, lines);
    MaxEndBounds(group, lines);
  }

  // ---------------------------------------------------------------------------
  // How many outputs
  // ---------------------------------------------------------------------------

  function GroupWeights(groups: seq<seq<Segment>>): (r: seq<nat>)
    ensures |r| == |groups| && forall i | 0 <= i < |r| :: r[i] == GroupNws(groups[i])
  {
    if groups == [] then [] else [GroupNws(groups[0])] + GroupWeights(groups[1..])
  }

  function Sum(ws: seq<nat>): nat {
    if ws == [] then 0 else ws[0] + Sum(ws[1..])
  }

  /** Two neighbours together weigh at least `b`: then half the count times `b` is a lower
      bound for the total. */
  lemma {:induction false} PairsWeigh(ws: seq<nat>, b: nat)
    requires forall i | 0 <= i < |ws| - 1 :: ws[i] + ws[i + 1] >= b
    ensures (|ws| / 2) * b <= Sum(ws)
  {
    if |ws| >= 2 {
      var rest := ws[2..];
      forall i | 0 <= i < |rest| - 1 ensures rest[i] + rest[i + 1] >= b {
        assert rest[i] == ws[i + 2] && rest[i + 1] == ws[i + 3];
      }
      PairsWeigh(rest, b);
      assert ws[1..][1..] == rest;
      assert |ws| / 2 == |rest| / 2 + 1;
      assert (|rest| / 2 + 1) * b == (|rest| / 2) * b + b;
    }
  }

  lemma {:induction false} GroupNwsOfConcat(a: seq<Segment>, b: seq<Segment>)
    ensures GroupNws(a + b) == GroupNws(a) + GroupNws(b)
  {
    if b == [] {
      assert a + b == a;
    } else {
      GroupNwsOfConcat(a, b[..|b| - 1]);
      assert (a + b)[..|a + b| - 1] == a + b[..|b| - 1];
    }
  }

  lemma {:induction false} WeightsAddUp(groups: seq<seq<Segment>>)
    ensures Sum(GroupWeights(groups)) == GroupNws(Flatten(groups))
  {
    if groups != [] {
      WeightsAddUp(groups[1..]);
      assert GroupWeights(groups)[1..] == GroupWeights(groups[1..]);
      GroupNwsOfConcat(groups[0], Flatten(groups[1..]));
    }
  }

  /** Disjoint aligned segments together weigh no more than the file up to their end. */
  lemma {:induction false} DisjointWeight(segments: seq<Segment>, lines: seq<string>)
    requires SegmentsInFile(segments, lines) && SegmentsDisjoint(segments) && AlignedSegments(segments, lines)
    ensures segments != [] ==>
              GroupNws(segments) <= SpanWeight(lines, 0, segments[|segments| - 1].end)
  {
    if segments != [] {
      var less, last := segments[..|segments| - 1], segments[|segments| - 1];
      DisjointWeight(less, lines);
      SpanSplits(lines, 0, last.start - 1, last.end);
      if less != [] {
        SpanSplits(lines, 0, less[|less| - 1].end, last.start - 1);
      }
    }
  }

  /** With gap capture and disjoint chunks, nothing but blank lines separates neighbouring
      segments. */
  lemma {:induction false} NoHolesAtRoot(chunks: seq<Chunk>, lines: seq<string>, covered: nat, k: nat)
    requires AllInFile(chunks, lines) && covered <= |lines| && Disjoint(chunks)
    requires forall i | 0 <= i < |chunks| :: covered < chunks[i].start
    requires k < |Segments(chunks, lines, covered, true)|
    ensures var segments := Segments(chunks, lines, covered, true);
            !HoleHasContent(if k == 0 then covered else segments[k - 1].end, segments[k], lines)
    decreases chunks
  {
    if chunks != [] {
      var c, rest := chunks[0], chunks[1..];
      var before := GapBefore(c, lines, covered, true);
      var after := Segments(rest, lines, c.end, true);
      var segments := before + [ChunkSegment(c)] + after;
      assert Segments(chunks, lines, covered, true) == segments;
      if k > |before| {
        NoHolesAtRoot(rest, lines, c.end, k - |before| - 1);
        assert segments[k] == after[k - |before| - 1];
        if k == |before| + 1 {
          assert segments[k - 1] == ChunkSegment(c);
        } else {
          assert segments[k - 1] == after[k - |before| - 2];
        }
      }
    }
  }

  /** The groups of a level of disjoint aligned chunks together weigh at most the file. */
  lemma GroupsWithinFile(chunks: seq<Chunk>, lines: seq<string>, maxNws: nat)
    requires AllInFile(chunks, lines) && Disjoint(chunks)
    requires forall k | 0 <= k < |chunks| :: Aligned(chunks[k], lines)
    ensures Sum(GroupWeights(Groups(chunks, lines, true, maxNws))) <= NwsCount(Join(lines))
  {
    var segments := Segments(chunks, lines, 0, true);
    GroupFacts(chunks, lines, true, maxNws);
    DisjointSegments(chunks, lines, 0, true);
    SegmentsAreAligned(chunks, lines, 0, true);
    DisjointWeight(segments, lines);
    WeightsAddUp(Groups(chunks, lines, true, maxNws));
    SpanWeightIsNws(lines, 0, |lines|);
    assert lines[0..|lines|] == lines;
    if segments != [] {
      SpanSplits(lines, 0, segments[|segments| - 1].end, |lines|);
    }
  }

  lemma FirstOfNext(groups: seq<seq<Segment>>, i: nat)
    requires i + 1 < |groups| && groups[i] != [] && groups[i + 1] != []
    ensures var k := |Flatten(groups[..i + 1])|;
            && 0 < k < |Flatten(groups)|
            && Flatten(groups)[k] == groups[i + 1][0]
            && Flatten(groups)[k - 1] == groups[i][|groups[i]| - 1]
  {
    GroupIsSlice(groups, i);
    GroupIsSlice(groups, i + 1);
    assert groups[..i + 1] == groups[..i] + [groups[i]];
    FlattenSnoc(groups[..i], groups[i]);
  }

  lemma NoHoleBetween(chunks: seq<Chunk>, lines: seq<string>, maxNws: nat, i: nat)
    requires AllInFile(chunks, lines) && SortedByStart(chunks) && Disjoint(chunks)
    requires i + 1 < |Groups(chunks, lines, true, maxNws)|
    ensures var groups := Groups(chunks, lines, true, maxNws);
            && groups[i] != [] && groups[i + 1] != []
            && !HoleHasContent(MaxEnd(groups[i]), groups[i + 1][0], lines)
  {
    var groups := Groups(chunks, lines, true, maxNws);
    DisjointSegments(chunks, lines, 0, true);
    GroupsAreGood(chunks, lines, true, maxNws, i);
    GroupsAreGood(chunks, lines, true, maxNws, i + 1);
    GroupsApart(groups, i, i + 1);
    FirstOfNext(groups, i);
    NoHolesAtRoot(chunks, lines, 0, |Flatten(groups[..i + 1])|);
  }

  lemma FirstWeighsLess(group: seq<Segment>)
    requires group != []
    ensures NwsCount(group[0].content) <= GroupNws(group)
  {
    GroupNwsOfConcat([group[0]], group[1..]);
    assert [group[0]] + group[1..] == group;
    assert [group[0]][..0] == [];
    assert GroupNws([group[0]]) == NwsCount(group[0].content);
  }

  /** Two neighbouring root groups could not have been one: together they burst the
      budget, since no contentful hole separates them. */
  lemma NeighboursTooHeavy(chunks: seq<Chunk>, lines: seq<string>, maxNws: nat, i: nat)
    requires AllInFile(chunks, lines) && SortedByStart(chunks) && Disjoint(chunks)
    requires i + 1 < |Groups(chunks, lines, true, maxNws)|
    ensures var groups := Groups(chunks, lines, true, maxNws);
            GroupNws(groups[i]) + GroupNws(groups[i + 1]) >= maxNws + 1
  {
    var groups := Groups(chunks, lines, true, maxNws);
    GroupFacts(chunks, lines, true, maxNws);
    NoHoleBetween(chunks, lines, maxNws, i);
    FirstWeighsLess(groups[i + 1]);
  }

  lemma {:induction false} FlattenSnoc<T>(groups: seq<seq<T>>, last: seq<T>)
    ensures |Flatten(groups + [last])| == |Flatten(groups)| + |last|
  {
    if groups == [] {
      assert groups + [last] == [last] && [last][1..] == [];
    } else {
      FlattenSnoc(groups[1..], last);
      assert (groups + [last])[1..] == groups[1..] + [last];
    }
  }

  lemma HalfBound(n: nat, sum: nat, total: nat, b: nat)
    requires b > 0 && (n / 2) * b <= sum <= total
    ensures n <= 2 * (total / b) + 1
  {
    var h, q := n / 2, total / b;
    assert total == q * b + total % b && (q + 1) * b == q * b + b;
    if h >= q + 1 {
      Monotone(q + 1, h, b);
      assert false;
    }
  }

  lemma Monotone(a: nat, c: nat, b: nat)
    requires a <= c
    ensures a * b <= c * b
  {
  }

  /** With line-disjoint aligned roots the number of root outputs is bounded by the size of
      the file: no two neighbouring groups could have been one. */
  lemma RootOutputCount(chunks: seq<Chunk>, lines: seq<string>, maxNws: nat)
    requires AllInFile(chunks, lines) && Disjoint(chunks)
    requires forall k | 0 <= k < |chunks| :: Aligned(chunks[k], lines)
    ensures SortedByStart(chunks)
    ensures |MergeLevel(chunks, lines, true, maxNws)| <= 2 * (NwsCount(Join(lines)) / (maxNws + 1)) + 1
  {
    var ws := GroupWeights(Groups(chunks, lines, true, maxNws));
    GroupsWithinFile(chunks, lines, maxNws);
    forall i | 0 <= i < |ws| - 1 ensures ws[i] + ws[i + 1] >= maxNws + 1 {
      NeighboursTooHeavy(chunks, lines, maxNws, i);
    }
    PairsWeigh(ws, maxNws + 1);
    HalfBound(|ws|, Sum(ws), NwsCount(Join(lines)), maxNws + 1);
  }
}
