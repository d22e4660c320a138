/** Batching of grouped texts for the contextualised embedding service. */
module VoyageBatches {

  const MAX_TOKENS_PER_DOC: nat := 30000
  const MAX_TOKENS_PER_BATCH: nat := 100000
  const MAX_INPUTS_PER_BATCH: nat := 500

  type Group = seq<string>
  type Batch = seq<Group>

  function Chars(texts: Group): nat {
    if texts == [] then 0 else Chars(texts[..|texts| - 1]) + |texts[|texts| - 1]|
  }

  /** `_estimate_tokens`: about four characters a token. */
  function Estimate(texts: Group): nat {
    Chars(texts) / 4
  }

  /** The sum of the estimates of the single texts, which the splitter keeps instead. */
  function SumOfEstimates(texts: Group): nat {
    if texts == [] then 0 else SumOfEstimates(texts[..|texts| - 1]) + |texts[|texts| - 1]| / 4
  }

  function BatchEstimate(batch: Batch): nat {
    if batch == [] then 0 else BatchEstimate(batch[..|batch| - 1]) + Estimate(batch[|batch| - 1])
  }

  function Flat<T>(lists: seq<seq<T>>): seq<T> {
    if lists == [] then [] else Flat(lists[..|lists| - 1]) + lists[|lists| - 1]
  }

  lemma FlatSnoc<T>(done: seq<seq<T>>, last: seq<T>)
    ensures Flat(done + [last]) == Flat(done) + last
  {
    assert (done + [last])[..|done|] == done;
  }

  lemma {:induction false} FlatSplits<T>(a: seq<seq<T>>, b: seq<seq<T>>)
    ensures Flat(a + b) == Flat(a) + Flat(b)
  {
    if b == [] {
      assert a + b == a;
    } else {
      var n := |b| - 1;
      FlatSplits(a, b[..n]);
      FlatSnoc(a + b[..n], b[n]);
      assert a + b[..n] + [b[n]] == a + b;
    }
  }

  /** Summing floors loses at most 3/4 of a token per text. */
  lemma {:induction false} FloorsLoseLittle(texts: Group)
    ensures 4 * SumOfEstimates(texts) <= Chars(texts) <= 4 * SumOfEstimates(texts) + 3 * |texts|
  {
    if texts != [] {
      FloorsLoseLittle(texts[..|texts| - 1]);
    }
  }

  // ---------------------------------------------------------------------------
  // Splitting one group
  // ---------------------------------------------------------------------------

  /** A piece is one text, or several within the per-document limit by the sum of their estimates. */
  predicate PieceFits(piece: Group) {
    |piece| == 1 || (piece != [] && SumOfEstimates(piece) <= MAX_TOKENS_PER_DOC)
  }

  /** A piece was closed only because the next text would not fit. */
  predicate ClosedFor(piece: Group, next: Group) {
    next != [] && SumOfEstimates(piece) + |next[0]| / 4 > MAX_TOKENS_PER_DOC
  }

  /** `pieces` cuts `group` greedily. */
  ghost predicate Splits(group: Group, pieces: seq<Group>) {
    && Flat(pieces) == group
    && (forall i | 0 <= i < |pieces| :: PieceFits(pieces[i]))
    && (forall i | 0 <= i < |pieces| - 1 :: ClosedFor(pieces[i], pieces[i + 1]))
  }

  function Closed<T>(done: seq<seq<T>>, current: seq<T>): seq<seq<T>> {
    if current == [] then done else done + [current]
  }

  lemma SplitJoins(before: Group, done: seq<Group>, current: Group, text: string)
    requires Splits(before, Closed(done, current)) && (current == [] ==> done == [])
    requires PieceFits(current + [text])
    ensures Splits(before + [text], Closed(done, current + [text]))
  {
    FlatSnoc(done, current);
    FlatSnoc(done, current + [text]);
    var was, now := Closed(done, current), Closed(done, current + [text]);
    forall i | 0 <= i < |now| - 1 ensures ClosedFor(now[i], now[i + 1]) {
      assert ClosedFor(was[i], was[i + 1]);
      assert i + 1 == |now| - 1 ==> now[i + 1][0] == was[i + 1][0];
    }
    forall i | 0 <= i < |now| ensures PieceFits(now[i]) {
      assert i < |now| - 1 ==> now[i] == was[i];
    }
  }

  lemma SplitCloses(before: Group, done: seq<Group>, current: Group, text: string)
    requires Splits(before, Closed(done, current)) && current != [] && ClosedFor(current, [text])
    ensures Splits(before + [text], Closed(done + [current], [text]))
  {
    FlatSnoc(done, current);
    FlatSnoc(done + [current], [text]);
    var was, now := Closed(done, current), Closed(done + [current], [text]);
    assert now == was + [[text]];
    forall i | 0 <= i < |now| - 1 ensures ClosedFor(now[i], now[i + 1]) {
      assert i < |was| - 1 ==> ClosedFor(was[i], was[i + 1]);
    }
    forall i | 0 <= i < |now| ensures PieceFits(now[i]) {
      assert i < |was| ==> now[i] == was[i];
    }
  }

  /** Whether `text` opens a new piece after `current`. */
  predicate OpensPiece(current: Group, text: string) {
    current != [] && SumOfEstimates(current) + |text| / 4 > MAX_TOKENS_PER_DOC
  }

  lemma SumSnoc(texts: Group, text: string)
    ensures SumOfEstimates(texts + [text]) == SumOfEstimates(texts) + |text| / 4
  {
    assert (texts + [text])[..|texts|] == texts;
  }

  ghost predicate SplitSoFar(before: Group, done: seq<Group>, current: Group, tokens: int) {
    && Splits(before, Closed(done, current))
    && tokens == SumOfEstimates(current)
    && (current == [] ==> before == [] && done == [])
  }

  lemma SplitStep(before: Group, done: seq<Group>, current: Group, tokens: int, text: string)
    requires SplitSoFar(before, done, current, tokens)
    ensures OpensPiece(current, text) ==> SplitSoFar(before + [text], done + [current], [text], |text| / 4)
    ensures !OpensPiece(current, text) ==>
      SplitSoFar(before + [text], done, current + [text], tokens + |text| / 4)
  {
    SumSnoc(current, text);
    SumSnoc([], text);
    assert [] + [text] == [text];
    if OpensPiece(current, text) {
      SplitCloses(before, done, current, text);
    } else {
      SplitJoins(before, done, current, text);
    }
  }

  /** `_split_oversized_group`. */
  method SplitOversizedGroup(group: Group) returns (pieces: seq<Group>)
    ensures if group == [] then pieces == [group] else Splits(group, pieces)
  {
    pieces := [];
    var current: Group, currentTokens := [], 0;
    for i := 0 to |group|
      invariant SplitSoFar(group[..i], pieces, current, currentTokens)
    {
      var text := group[i];
      var textTokens := |text| / 4;
      SplitStep(group[..i], pieces, current, currentTokens, text);
      assert group[..i] + [text] == group[..i + 1];
      if current != [] && currentTokens + textTokens > MAX_TOKENS_PER_DOC {
        pieces := pieces + [current];
        current, currentTokens := [text], textTokens;
      } else {
        current, currentTokens := current + [text], currentTokens + textTokens;
      }
    }
    assert group[..|group|] == group;
    if current != [] {
      pieces := pieces + [current];
    }
    if pieces == [] {
      pieces := [group];
    }
  }

  /** The price of summing floors: a piece of `n >= 2` texts is estimated at no more than `3n / 4` over the limit. */
  lemma PieceEstimate(piece: Group)
    requires PieceFits(piece)
    ensures |piece| >= 2 ==> Estimate(piece) <= MAX_TOKENS_PER_DOC + 3 * |piece| / 4
  {
    FloorsLoseLittle(piece);
  }

  function Repeat(text: string, n: nat): (texts: Group)
    ensures |texts| == n
  {
    if n == 0 then [] else Repeat(text, n - 1) + [text]
  }

  lemma {:induction false} RepeatedWeights(n: nat)
    ensures Chars(Repeat("abc", n)) == 3 * n && SumOfEstimates(Repeat("abc", n)) == 0
  {
    if n > 0 {
      RepeatedWeights(n - 1);
    }
  }

  /** And it is paid in full by some piece of every length. */
  lemma PieceEstimateIsTight(n: nat) returns (piece: Group)
    requires n >= 1
    ensures |piece| == n && SumOfEstimates(piece) == MAX_TOKENS_PER_DOC && PieceFits(piece)
    ensures Estimate(piece) == MAX_TOKENS_PER_DOC + 3 * n / 4
  {
    var long: string := seq(4 * MAX_TOKENS_PER_DOC + 3, _ => 'x');
    piece := Repeat("abc", n - 1) + [long];
    RepeatedWeights(n - 1);
    assert piece[..n - 1] == Repeat("abc", n - 1);
  }

  // ---------------------------------------------------------------------------
  // Batches
  // ---------------------------------------------------------------------------

  /** The groups sent in place of `group`. */
  ghost predicate Replaces(group: Group, pieces: seq<Group>) {
    if Estimate(group) > MAX_TOKENS_PER_DOC then Splits(group, pieces) else pieces == [group]
  }

  predicate BatchFits(batch: Batch) {
    && 1 <= |batch| <= MAX_INPUTS_PER_BATCH
    && (|batch| >= 2 ==> BatchEstimate(batch) <= MAX_TOKENS_PER_BATCH)
  }

  predicate BatchClosedFor(batch: Batch, next: Batch) {
    && next != []
    && (|batch| == MAX_INPUTS_PER_BATCH || BatchEstimate(batch) + Estimate(next[0]) > MAX_TOKENS_PER_BATCH)
  }

  /** `batches` packs `groups` greedily. */
  ghost predicate Packs(groups: seq<Group>, batches: seq<Batch>) {
    && Flat(batches) == groups
    && (forall i | 0 <= i < |batches| :: BatchFits(batches[i]))
    && (forall i | 0 <= i < |batches| - 1 :: BatchClosedFor(batches[i], batches[i + 1]))
  }

  lemma BatchEstimateSnoc(batch: Batch, group: Group)
    ensures BatchEstimate(batch + [group]) == BatchEstimate(batch) + Estimate(group)
  {
    assert (batch + [group])[..|batch|] == batch;
  }

  lemma PackJoins(before: seq<Group>, done: seq<Batch>, current: Batch, group: Group)
    requires Packs(before, Closed(done, current)) && (current == [] ==> done == [])
    requires BatchFits(current + [group])
    ensures Packs(before + [group], Closed(done, current + [group]))
  {
    FlatSnoc(done, current);
    FlatSnoc(done, current + [group]);
    var was, now := Closed(done, current), Closed(done, current + [group]);
    forall i | 0 <= i < |now| - 1 ensures BatchClosedFor(now[i], now[i + 1]) {
      assert BatchClosedFor(was[i], was[i + 1]);
      assert i + 1 == |now| - 1 ==> now[i + 1][0] == was[i + 1][0];
    }
    forall i | 0 <= i < |now| ensures BatchFits(now[i]) {
      assert i < |now| - 1 ==> now[i] == was[i];
    }
  }

  lemma PackCloses(before: seq<Group>, done: seq<Batch>, current: Batch, group: Group)
    requires Packs(before, Closed(done, current)) && current != []
    requires BatchFits([group]) && BatchClosedFor(current, [group])
    ensures Packs(before + [group], Closed(done + [current], [group]))
  {
    FlatSnoc(done, current);
    FlatSnoc(done + [current], [group]);
    var was, now := Closed(done, current), Closed(done + [current], [group]);
    assert now == was + [[group]];
    forall i | 0 <= i < |now| - 1 ensures BatchClosedFor(now[i], now[i + 1]) {
      assert i < |was| - 1 ==> BatchClosedFor(was[i], was[i + 1]);
    }
    forall i | 0 <= i < |now| ensures BatchFits(now[i]) {
      assert i < |was| ==> now[i] == was[i];
    }
  }

  /** Whether `group` opens a new batch after `current`. */
  predicate OpensBatch(current: Batch, group: Group) {
    && current != []
    && (BatchEstimate(current) + Estimate(group) > MAX_TOKENS_PER_BATCH || |current| >= MAX_INPUTS_PER_BATCH)
  }

  ghost predicate PackedSoFar(before: seq<Group>, done: seq<Batch>, current: Batch, tokens: int) {
    && Packs(before, Closed(done, current))
    && tokens == BatchEstimate(current)
    && (current == [] ==> before == [] && done == [])
  }

  lemma PackStep(before: seq<Group>, done: seq<Batch>, current: Batch, tokens: int, group: Group)
    requires PackedSoFar(before, done, current, tokens)
    ensures OpensBatch(current, group) ==> PackedSoFar(before + [group], done + [current], [group], Estimate(group))
    ensures !OpensBatch(current, group) ==>
      PackedSoFar(before + [group], done, current + [group], tokens + Estimate(group))
  {
    BatchEstimateSnoc(current, group);
    BatchEstimateSnoc([], group);
    assert [] + [group] == [group];
    if OpensBatch(current, group) {
      assert current == Closed(done, current)[|done|];
      PackCloses(before, done, current, group);
    } else {
      PackJoins(before, done, current, group);
    }
  }

  method PackGroups(groups: seq<Group>) returns (batches: seq<Batch>)
    ensures Packs(groups, batches)
  {
    batches := [];
    var current: Batch, currentTokens := [], 0;
    for i := 0 to |groups|
      invariant PackedSoFar(groups[..i], batches, current, currentTokens)
    {
      var group := groups[i];
      var groupTokens := Estimate(group);
      PackStep(groups[..i], batches, current, currentTokens, group);
      assert groups[..i] + [group] == groups[..i + 1];
      if current != [] && (currentTokens + groupTokens > MAX_TOKENS_PER_BATCH || |current| >= MAX_INPUTS_PER_BATCH) {
        batches := batches + [current];
        current, currentTokens := [group], groupTokens;
      } else {
        current, currentTokens := current + [group], currentTokens + groupTokens;
      }
    }
    assert groups[..|groups|] == groups;
    if current != [] {
      batches := batches + [current];
    }
  }

  lemma {:induction false} ReplacedTexts(groups: seq<Group>, parts: seq<seq<Group>>)
    requires |groups| == |parts| && forall i | 0 <= i < |groups| :: Replaces(groups[i], parts[i])
    ensures Flat(Flat(parts)) == Flat(groups)
  {
    if groups != [] {
      var n := |groups| - 1;
      ReplacedTexts(groups[..n], parts[..n]);
      FlatSplits(Flat(parts[..n]), parts[n]);
    }
  }

  ghost predicate GroupFits(group: Group) {
    |group| == 1 || Estimate(group) <= MAX_TOKENS_PER_DOC + 3 * |group| / 4
  }

  lemma {:induction false} ReplacedGroupsFit(groups: seq<Group>, parts: seq<seq<Group>>)
    requires |groups| == |parts| && forall i | 0 <= i < |groups| :: Replaces(groups[i], parts[i])
    ensures forall group | group in Flat(parts) :: GroupFits(group)
  {
    if groups != [] {
      var n := |groups| - 1;
      ReplacedGroupsFit(groups[..n], parts[..n]);
      forall group | group in parts[n] ensures GroupFits(group) {
        if Estimate(groups[n]) > MAX_TOKENS_PER_DOC {
          PieceEstimate(group);
        }
      }
    }
  }

  /** `_prepare_voyage_batches`: no text is lost, repeated or moved, and every batch and every group stays
      within its limit. */
  method PrepareVoyageBatches(grouped: seq<Group>) returns (batches: seq<Batch>, ghost parts: seq<seq<Group>>)
    ensures |parts| == |grouped| && forall i | 0 <= i < |grouped| :: Replaces(grouped[i], parts[i])
    ensures Packs(Flat(parts), batches)
    ensures Flat(Flat(batches)) == Flat(grouped)
    ensures forall group | group in Flat(batches) :: GroupFits(group)
  {
    var splitGroups: seq<Group> := [];
    parts := [];
    for i := 0 to |grouped|
      invariant |parts| == i && forall k | 0 <= k < i :: Replaces(grouped[k], parts[k])
      invariant splitGroups == Flat(parts)
    {
      var pieces := [grouped[i]];
      if Estimate(grouped[i]) > MAX_TOKENS_PER_DOC {
        pieces := SplitOversizedGroup(grouped[i]);
      }
      splitGroups := splitGroups + pieces;
      parts := parts + [pieces];
    }
    batches := PackGroups(splitGroups);
    ReplacedTexts(grouped, parts);
    ReplacedGroupsFit(grouped, parts);
  }

  // ---------------------------------------------------------------------------
  // Greedy cutting has one result
  // ---------------------------------------------------------------------------

  lemma {:induction false} SumOfPrefix(texts: Group, n: nat)
    requires n < |texts|
    ensures SumOfEstimates(texts[..n]) + |texts[n]| / 4 <= SumOfEstimates(texts)
  {
    var m := |texts| - 1;
    if n < m {
      SumOfPrefix(texts[..m], n);
      assert texts[..m][..n] == texts[..n];
    }
  }

  lemma FirstPiece(group: Group, pieces: seq<Group>)
    requires Splits(group, pieces) && group != []
    ensures pieces != [] && pieces[0] <= group && pieces[0] != []
    ensures Splits(group[|pieces[0]|..], pieces[1..])
    ensures |pieces[0]| < |group| ==>
      SumOfEstimates(pieces[0]) + |group[|pieces[0]|]| / 4 > MAX_TOKENS_PER_DOC
  {
    var rest := pieces[1..];
    assert pieces == [pieces[0]] + rest;
    FlatSplits([pieces[0]], rest);
    FlatSnoc<string>([], pieces[0]);
    assert group == pieces[0] + Flat(rest);
    assert Splits(Flat(rest), rest) by {
      forall i | 0 <= i < |rest| - 1 ensures ClosedFor(rest[i], rest[i + 1]) {
        assert ClosedFor(pieces[i + 1], pieces[i + 2]);
      }
    }
    if rest != [] {
      assert rest == [rest[0]] + rest[1..];
      FlatSplits([rest[0]], rest[1..]);
      FlatSnoc<string>([], rest[0]);
      assert ClosedFor(pieces[0], pieces[1]);
    }
  }

  lemma FirstPieceIsNotShorter(group: Group, a: seq<Group>, b: seq<Group>)
    requires Splits(group, a) && Splits(group, b) && group != []
    ensures a != [] && b != [] && |a[0]| >= |b[0]|
  {
    FirstPiece(group, a);
    FirstPiece(group, b);
    if |a[0]| < |b[0]| {
      assert b[0][..|a[0]|] == a[0];
      SumOfPrefix(b[0], |a[0]|);
    }
  }

  /** The contract of the splitter leaves no choice: there is one greedy cut of a group. */
  lemma {:induction false} SplitIsUnique(group: Group, a: seq<Group>, b: seq<Group>)
    requires Splits(group, a) && Splits(group, b)
    ensures a == b
    decreases |group|
  {
    if group == [] {
      NoPieces(a);
      NoPieces(b);
    } else {
      FirstPieceIsNotShorter(group, a, b);
      FirstPieceIsNotShorter(group, b, a);
      FirstPiece(group, a);
      FirstPiece(group, b);
      assert a[0] == group[..|a[0]|] == b[0];
      SplitIsUnique(group[|a[0]|..], a[1..], b[1..]);
      assert a == [a[0]] + a[1..] && b == [b[0]] + b[1..];
    }
  }

  lemma NoPieces(pieces: seq<Group>)
    requires Splits([], pieces)
    ensures pieces == []
  {
    if pieces != [] {
      SomePieces(pieces);
    }
  }

  lemma SomePieces(pieces: seq<Group>)
    requires pieces != [] && forall i | 0 <= i < |pieces| :: PieceFits(pieces[i])
    ensures Flat(pieces) != []
  {
    assert PieceFits(pieces[|pieces| - 1]);
  }
}
