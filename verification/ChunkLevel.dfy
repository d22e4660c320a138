/** Merging the sibling chunks of one containment level: gap capture, greedy packing
    under a budget, and the rule against contentful holes. */
module ChunkLevel {
  import opened Wrappers
  import opened SourceText

  /** A chunk covers source lines `start` to `end`, counted from 1. */
  datatype Chunk = Chunk(start: nat, end: nat, content: string, title: Option<string>)

  /** A chunk to be packed, or (without an original) captured gap code. */
  datatype Segment = Segment(start: nat, end: nat, content: string, title: Option<string>, original: Option<Chunk>)

  function Max(a: nat, b: nat): nat { if a >= b then a else b }

  predicate InFile(c: Chunk, lines: seq<string>) {
    1 <= c.start <= c.end <= |lines|
  }

  ghost predicate AllInFile(chunks: seq<Chunk>, lines: seq<string>) {
    forall i | 0 <= i < |chunks| :: InFile(chunks[i], lines)
  }

  ghost predicate SortedByStart(chunks: seq<Chunk>) {
    forall i, j | 0 <= i < j < |chunks| :: chunks[i].start <= chunks[j].start
  }

  /** The chunk's text weighs what its source lines weigh. */
  predicate Aligned(c: Chunk, lines: seq<string>)
    requires InFile(c, lines)
  {
    NwsCount(c.content) == SpanWeight(lines, c.start - 1, c.end)
  }

  // ---------------------------------------------------------------------------
  // Segments
  // ---------------------------------------------------------------------------

  function ChunkSegment(c: Chunk): Segment {
    Segment(c.start, c.end, c.content, c.title, Some(c))
  }

  /** Source lines `lo + 1` to `hi` as a gap, unless they are blank. */
  function Gap(lines: seq<string>, lo: nat, hi: nat): seq<Segment>
    requires lo <= hi <= |lines|
  {
    if lo < hi && !Blank(Span(lines, lo, hi)) then [Segment(lo + 1, hi, Span(lines, lo, hi), None, None)] else []
  }

  /** The segments after the first `covered` lines, which earlier chunks reach. */
  function Segments(chunks: seq<Chunk>, lines: seq<string>, covered: nat, gaps: bool): seq<Segment>
    requires AllInFile(chunks, lines) && covered <= |lines|
  {
    if chunks == [] then
      if gaps then Gap(lines, covered, |lines|) else []
    else
      GapBefore(chunks[0], lines, covered, gaps)
      + [ChunkSegment(chunks[0])]
      + Segments(chunks[1..], lines, Max(covered, chunks[0].end), gaps)
  }

  predicate SegmentInFile(s: Segment, lines: seq<string>) {
    1 <= s.start <= s.end <= |lines|
  }

  ghost predicate SegmentsSorted(segments: seq<Segment>) {
    forall i, j | 0 <= i < j < |segments| :: segments[i].start <= segments[j].start
  }

  ghost predicate SegmentsInFile(segments: seq<Segment>, lines: seq<string>) {
    forall i | 0 <= i < |segments| :: SegmentInFile(segments[i], lines)
  }

  predicate Covers(s: Segment, line: nat) {
    s.start <= line <= s.end
  }

  function Originals(segments: seq<Segment>): seq<Chunk> {
    if segments == [] then []
    else (if segments[0].original.Some? then [segments[0].original.value] else []) + Originals(segments[1..])
  }

  lemma {:induction false} OriginalsOfConcat(a: seq<Segment>, b: seq<Segment>)
    ensures Originals(a + b) == Originals(a) + Originals(b)
  {
    if a == [] {
      assert a + b == b;
    } else {
      OriginalsOfConcat(a[1..], b);
      assert (a + b)[1..] == a[1..] + b && (a + b)[0] == a[0];
      var first := if a[0].original.Some? then [a[0].original.value] else [];
      assert first + (Originals(a[1..]) + Originals(b)) == (first + Originals(a[1..])) + Originals(b);
    }
  }

  /** The gap in front of a chunk. */
  function GapBefore(c: Chunk, lines: seq<string>, covered: nat, gaps: bool): (before: seq<Segment>)
    requires InFile(c, lines) && covered <= |lines|
    ensures |before| <= 1
    ensures before != [] ==> covered + 1 < c.start && before[0].original.None?
                             && before[0].start == covered + 1 && before[0].end == c.start - 1
  {
    if gaps && covered < c.start - 1 then Gap(lines, covered, c.start - 1) else []
  }

  lemma OriginalsAroundChunk(before: seq<Segment>, c: Chunk, after: seq<Segment>)
    requires |before| <= 1 && (before != [] ==> before[0].original.None?)
    ensures Originals(before + [ChunkSegment(c)] + after) == [c] + Originals(after)
  {
    OriginalsOfConcat(before + [ChunkSegment(c)], after);
    OriginalsOfConcat(before, [ChunkSegment(c)]);
    assert Originals(before) == [] && Originals([ChunkSegment(c)]) == [c];
  }

  /** The segments carry the chunks themselves, each once and in order. */
  lemma {:induction false} SegmentsKeepChunks(chunks: seq<Chunk>, lines: seq<string>, covered: nat, gaps: bool)
    requires AllInFile(chunks, lines) && covered <= |lines|
    ensures Originals(Segments(chunks, lines, covered, gaps)) == chunks
    decreases chunks
  {
    if chunks != [] {
      var c, rest := chunks[0], chunks[1..];
      var before := GapBefore(c, lines, covered, gaps);
      var after := Segments(rest, lines, Max(covered, c.end), gaps);
      SegmentsKeepChunks(rest, lines, Max(covered, c.end), gaps);
      OriginalsAroundChunk(before, c, after);
      assert [c] + rest == chunks;
    }
  }

  /** Segments lie in the file in order of their first lines. */
  lemma {:induction false} SegmentsInOrder(chunks: seq<Chunk>, lines: seq<string>, covered: nat, gaps: bool, low: nat)
    requires AllInFile(chunks, lines) && covered <= |lines|
    requires SortedByStart(chunks) && low <= covered + 1
    requires forall i | 0 <= i < |chunks| :: low <= chunks[i].start
    ensures var segments := Segments(chunks, lines, covered, gaps);
            && SegmentsInFile(segments, lines) && SegmentsSorted(segments)
            && forall i | 0 <= i < |segments| :: low <= segments[i].start
    decreases chunks
  {
    if chunks != [] {
      var c, rest := chunks[0], chunks[1..];
      SegmentsInOrder(rest, lines, Max(covered, c.end), gaps, c.start);
      var before := GapBefore(c, lines, covered, gaps);
      var after := Segments(rest, lines, Max(covered, c.end), gaps);
      assert Segments(chunks, lines, covered, gaps) == before + [ChunkSegment(c)] + after;
    }
  }

  /** With gap capture every contentful line past `covered` lies in some segment. */
  lemma {:induction false} SegmentsCover(chunks: seq<Chunk>, lines: seq<string>, covered: nat, line: nat)
    returns (k: nat)
    requires AllInFile(chunks, lines) && covered < line <= |lines|
    requires !Blank(lines[line - 1])
    ensures var segments := Segments(chunks, lines, covered, true); k < |segments| && Covers(segments[k], line)
    decreases chunks
  {
    if chunks == [] {
      BlankSpan(lines, covered, |lines|);
      k := 0;
    } else {
      var c := chunks[0];
      var before := GapBefore(c, lines, covered, true);
      if line < c.start {
        BlankSpan(lines, covered, c.start - 1);
        k := 0;
      } else if line <= c.end {
        k := |before|;
      } else {
        k := SegmentsCover(chunks[1..], lines, Max(covered, c.end), line);
        k := k + |before| + 1;
      }
    }
  }

  /** No gap meets a chunk of its level, nor a line already covered. */
  lemma {:induction false} GapsMeetNoChunk(chunks: seq<Chunk>, lines: seq<string>, covered: nat, k: nat, i: nat)
    requires AllInFile(chunks, lines) && SortedByStart(chunks) && covered <= |lines|
    requires k < |Segments(chunks, lines, covered, true)| && i < |chunks|
    requires Segments(chunks, lines, covered, true)[k].original.None?
    ensures var gap := Segments(chunks, lines, covered, true)[k];
            covered < gap.start && (gap.end < chunks[i].start || chunks[i].end < gap.start)
    decreases chunks
  {
    var c, rest := chunks[0], chunks[1..];
    var before := GapBefore(c, lines, covered, true);
    var after := Segments(rest, lines, Max(covered, c.end), true);
    var segments := before + [ChunkSegment(c)] + after;
    assert segments == Segments(chunks, lines, covered, true);
    if k < |before| {
      assert segments[k] == before[0] && c.start <= chunks[i].start;
    } else if k > |before| {
      var k' := k - |before| - 1;
      assert segments[k] == after[k'];
      if rest == [] {
        assert after == Gap(lines, Max(covered, c.end), |lines|);
      } else {
        GapsMeetNoChunk(rest, lines, Max(covered, c.end), k', if i > 0 then i - 1 else 0);
      }
    }
  }

  // ---------------------------------------------------------------------------
  // Packing
  // ---------------------------------------------------------------------------

  function GroupNws(group: seq<Segment>): nat {
    if group == [] then 0 else GroupNws(group[..|group| - 1]) + NwsCount(group[|group| - 1].content)
  }

  function MaxEnd(group: seq<Segment>): nat {
    if group == [] then 0 else Max(MaxEnd(group[..|group| - 1]), group[|group| - 1].end)
  }

  lemma {:induction false} MaxEndBounds(group: seq<Segment>, lines: seq<string>)
    requires SegmentsInFile(group, lines)
    ensures MaxEnd(group) <= |lines|
    ensures forall i | 0 <= i < |group| :: group[i].end <= MaxEnd(group)
    ensures group != [] ==> exists i :: 0 <= i < |group| && group[i].end == MaxEnd(group)
  {
    if group != [] {
      MaxEndBounds(group[..|group| - 1], lines);
    }
  }

  /** The lines between a group that reaches `reach` and the next segment hold text. */
  predicate HoleHasContent(reach: nat, s: Segment, lines: seq<string>) {
    reach + 1 < s.start <= |lines| + 1 && !Blank(Span(lines, reach, s.start - 1))
  }

  predicate Joins(group: seq<Segment>, s: Segment, lines: seq<string>, maxNws: nat) {
    GroupNws(group) + NwsCount(s.content) <= maxNws && !HoleHasContent(MaxEnd(group), s, lines)
  }

  /** Greedy packing: `rest` is added to the open group one segment at a time. */
  function Pack(group: seq<Segment>, rest: seq<Segment>, lines: seq<string>, maxNws: nat): seq<seq<Segment>>
    decreases rest
  {
    if rest == [] then [group]
    else if Joins(group, rest[0], lines, maxNws) then Pack(group + [rest[0]], rest[1..], lines, maxNws)
    else [group] + Pack([rest[0]], rest[1..], lines, maxNws)
  }

  function Flatten<T>(groups: seq<seq<T>>): seq<T> {
    if groups == [] then [] else groups[0] + Flatten(groups[1..])
  }

  /** What packing maintains of one group. */
  ghost predicate Packed(group: seq<Segment>, lines: seq<string>, maxNws: nat) {
    && group != []
    && (|group| >= 2 ==> GroupNws(group) <= maxNws)
    && forall k | 1 <= k < |group| :: !HoleHasContent(MaxEnd(group[..k]), group[k], lines)
  }

  /** Every group is packed, and none could have taken the segment after it. */
  ghost predicate Greedy(groups: seq<seq<Segment>>, lines: seq<string>, maxNws: nat) {
    && (forall i | 0 <= i < |groups| :: Packed(groups[i], lines, maxNws))
    && (forall i | 0 <= i < |groups| - 1 :: !Joins(groups[i], groups[i + 1][0], lines, maxNws))
  }

  lemma PackedGrows(group: seq<Segment>, s: Segment, lines: seq<string>, maxNws: nat)
    requires Packed(group, lines, maxNws) && Joins(group, s, lines, maxNws)
    ensures Packed(group + [s], lines, maxNws)
  {
    var longer := group + [s];
    assert longer[..|group|] == group;
    forall k | 1 <= k < |longer| ensures !HoleHasContent(MaxEnd(longer[..k]), longer[k], lines) {
      if k < |group| {
        assert longer[..k] == group[..k];
      }
    }
  }

  lemma PackedAlone(s: Segment, lines: seq<string>, maxNws: nat)
    ensures Packed([s], lines, maxNws)
  {
  }

  /** Packing keeps every segment, in order. */
  lemma {:induction false} PackKeepsSegments(group: seq<Segment>, rest: seq<Segment>, lines: seq<string>, maxNws: nat)
    requires group != []
    ensures var groups := Pack(group, rest, lines, maxNws);
            groups != [] && groups[0] != [] && groups[0][0] == group[0] && Flatten(groups) == group + rest
    decreases rest
  {
    if rest == [] {
      assert Flatten([group]) == group + Flatten([]);
    } else if Joins(group, rest[0], lines, maxNws) {
      PackKeepsSegments(group + [rest[0]], rest[1..], lines, maxNws);
      assert group + [rest[0]] + rest[1..] == group + rest;
    } else {
      PackKeepsSegments([rest[0]], rest[1..], lines, maxNws);
      var tail := Pack([rest[0]], rest[1..], lines, maxNws);
      assert ([group] + tail)[1..] == tail && [rest[0]] + rest[1..] == rest;
    }
  }

  /** Each group obeys budget and hole rule, and is closed only when the next segment
      could not have joined it. */
  lemma {:induction false} PackIsGreedy(group: seq<Segment>, rest: seq<Segment>, lines: seq<string>, maxNws: nat)
    requires Packed(group, lines, maxNws)
    ensures Greedy(Pack(group, rest, lines, maxNws), lines, maxNws)
    decreases rest
  {
    if rest != [] {
      if Joins(group, rest[0], lines, maxNws) {
        PackedGrows(group, rest[0], lines, maxNws);
        PackIsGreedy(group + [rest[0]], rest[1..], lines, maxNws);
        assert Pack(group, rest, lines, maxNws) == Pack(group + [rest[0]], rest[1..], lines, maxNws);
      } else {
        PackedAlone(rest[0], lines, maxNws);
        PackIsGreedy([rest[0]], rest[1..], lines, maxNws);
        PackKeepsSegments([rest[0]], rest[1..], lines, maxNws);
        var tail := Pack([rest[0]], rest[1..], lines, maxNws);
        var groups := [group] + tail;
        assert Pack(group, rest, lines, maxNws) == groups;
        assert forall i | 1 <= i < |groups| :: groups[i] == tail[i - 1];
      }
    }
  }

  /** The groups of a level. */
  function Groups(chunks: seq<Chunk>, lines: seq<string>, gaps: bool, maxNws: nat): seq<seq<Segment>>
    requires AllInFile(chunks, lines)
  {
    var segments := Segments(chunks, lines, 0, gaps);
    if segments == [] then [] else Pack([segments[0]], segments[1..], lines, maxNws)
  }

  // ---------------------------------------------------------------------------
  // Emission
  // ---------------------------------------------------------------------------

  function MergedTitle(group: seq<Segment>): Option<string> {
    if group == [] then None
    else
      var before := MergedTitle(group[..|group| - 1]);
      var title := group[|group| - 1].title;
      if title.None? || title.value == "" then before
      else if before.None? then title
      else Some(before.value + " + " + title.value)
  }

  /** The titles of a group that are not empty, in order. */
  function TitlesOf(group: seq<Segment>): seq<string> {
    if group == [] then []
    else
      (if group[0].title.Some? && group[0].title.value != "" then [group[0].title.value] else [])
      + TitlesOf(group[1..])
  }

  lemma {:induction false} TitlesOfConcat(a: seq<Segment>, b: seq<Segment>)
    ensures TitlesOf(a + b) == TitlesOf(a) + TitlesOf(b)
  {
    if a == [] {
      assert a + b == b;
    } else {
      TitlesOfConcat(a[1..], b);
      assert (a + b)[1..] == a[1..] + b && (a + b)[0] == a[0];
    }
  }

  function Listed(titles: seq<string>): string
    requires titles != []
  {
    if |titles| == 1 then titles[0] else Listed(titles[..|titles| - 1]) + " + " + titles[|titles| - 1]
  }

  /** A merged title lists the titles of its group in order. */
  lemma {:induction false} MergedTitleLists(group: seq<Segment>)
    ensures MergedTitle(group) == if TitlesOf(group) == [] then None else Some(Listed(TitlesOf(group)))
  {
    if group != [] {
      var less, last := group[..|group| - 1], group[|group| - 1];
      MergedTitleLists(less);
      assert group == less + [last];
      TitlesOfConcat(less, [last]);
      assert [last][1..] == [];
      if last.title.Some? && last.title.value != "" {
        assert TitlesOf(group) == TitlesOf(less) + [last.title.value];
        assert TitlesOf(group)[..|TitlesOf(less)|] == TitlesOf(less);
      } else {
        assert TitlesOf(group) == TitlesOf(less);
      }
    }
  }

  /** A lone chunk is returned as it came; anything else is rebuilt from the source. */
  function Emit(group: seq<Segment>, lines: seq<string>): Chunk
    requires group != [] && SegmentsInFile(group, lines)
  {
    if |group| == 1 && group[0].original.Some? then group[0].original.value
    else
      MaxEndBounds(group, lines);
      Chunk(group[0].start, MaxEnd(group), Span(lines, group[0].start - 1, MaxEnd(group)), MergedTitle(group))
  }

  /** Every segment is in the file, and one with an original is exactly its segment. */
  ghost predicate Genuine(segments: seq<Segment>, lines: seq<string>) {
    && SegmentsInFile(segments, lines)
    && forall i | 0 <= i < |segments| && segments[i].original.Some? ::
         segments[i] == ChunkSegment(segments[i].original.value)
  }

  lemma {:induction false} SegmentsAreGenuine(chunks: seq<Chunk>, lines: seq<string>, covered: nat, gaps: bool)
    requires AllInFile(chunks, lines) && covered <= |lines|
    ensures Genuine(Segments(chunks, lines, covered, gaps), lines)
    decreases chunks
  {
    if chunks != [] {
      SegmentsAreGenuine(chunks[1..], lines, Max(covered, chunks[0].end), gaps);
    }
  }

  /** Position `j` of group `i` in the flattened list. */
  lemma {:induction false} FlattenAt<T>(groups: seq<seq<T>>, i: nat, j: nat) returns (k: nat)
    requires i < |groups| && j < |groups[i]|
    ensures k < |Flatten(groups)| && Flatten(groups)[k] == groups[i][j]
    ensures k == |Flatten(groups[..i])| + j
    decreases i
  {
    if i == 0 {
      k := j;
      assert groups[..0] == [];
    } else {
      k := FlattenAt(groups[1..], i - 1, j);
      k := k + |groups[0]|;
      assert groups[..i][1..] == groups[1..][..i - 1];
    }
  }

  lemma {:induction false} FlattenHas<T>(groups: seq<seq<T>>, k: nat) returns (i: nat, j: nat)
    requires k < |Flatten(groups)|
    ensures i < |groups| && j < |groups[i]| && groups[i][j] == Flatten(groups)[k]
  {
    if k < |groups[0]| {
      i, j := 0, k;
    } else {
      i, j := FlattenHas(groups[1..], k - |groups[0]|);
      i := i + 1;
    }
  }

  lemma {:induction false} FlattenOrder<T>(groups: seq<seq<T>>, i: nat, i': nat)
    requires i <= i' <= |groups|
    ensures |Flatten(groups[..i])| <= |Flatten(groups[..i'])|
    ensures i < i' ==> |Flatten(groups[..i])| + |groups[i]| <= |Flatten(groups[..i'])|
    decreases i
  {
    if i == 0 {
      assert groups[..0] == [];
    } else {
      FlattenOrder(groups[1..], i - 1, i' - 1);
      assert groups[..i][1..] == groups[1..][..i - 1];
      assert groups[..i'][1..] == groups[1..][..i' - 1];
    }
  }

  /** The groups of a level: genuine segments in file order, packed, all of them. */
  lemma GroupFacts(chunks: seq<Chunk>, lines: seq<string>, gaps: bool, maxNws: nat)
    requires AllInFile(chunks, lines) && SortedByStart(chunks)
    ensures var groups := Groups(chunks, lines, gaps, maxNws);
            && Flatten(groups) == Segments(chunks, lines, 0, gaps)
            && Greedy(groups, lines, maxNws)
            && forall i | 0 <= i < |groups| :: Genuine(groups[i], lines) && SegmentsSorted(groups[i])
  {
    var segments := Segments(chunks, lines, 0, gaps);
    SegmentsAreGenuine(chunks, lines, 0, gaps);
    SegmentsInOrder(chunks, lines, 0, gaps, 0);
    if segments != [] {
      PackedAlone(segments[0], lines, maxNws);
      PackIsGreedy([segments[0]], segments[1..], lines, maxNws);
      PackKeepsSegments([segments[0]], segments[1..], lines, maxNws);
      assert [segments[0]] + segments[1..] == segments;
      var groups := Groups(chunks, lines, gaps, maxNws);
      forall i | 0 <= i < |groups| ensures Genuine(groups[i], lines) && SegmentsSorted(groups[i]) {
        GroupIsSlice(groups, i);
      }
    }
  }

  lemma GroupIsSlice<T>(groups: seq<seq<T>>, i: nat)
    requires i < |groups|
    ensures var base := |Flatten(groups[..i])|;
            base + |groups[i]| <= |Flatten(groups)|
            && forall j | 0 <= j < |groups[i]| :: groups[i][j] == Flatten(groups)[base + j]
  {
    FlattenOrder(groups, i, i + 1);
    FlattenOrder(groups, i + 1, |groups|);
    assert groups[..|groups|] == groups;
    forall j | 0 <= j < |groups[i]| ensures groups[i][j] == Flatten(groups)[|Flatten(groups[..i])| + j] {
      var k := FlattenAt(groups, i, j);
    }
  }
}
