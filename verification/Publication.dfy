/** The publication protocol of `CodeIndexManager`: staging, root mirrors, manifest
    commit, rollback, recovery and pruning, one durable change at a time. */
module Publication {
  import opened Wrappers
  import opened PublicationDisk
  import opened Faults

  // ---------------------------------------------------------------------------
  // Facts about single durable changes
  // ---------------------------------------------------------------------------

  lemma EveryArtifactIsListed(a: Artifact)
    ensures a in ARTIFACTS
  {
    match a
    case CodeIndex => assert ARTIFACTS[0] == a;
    case ChunkIds => assert ARTIFACTS[1] == a;
    case MetadataDb => assert ARTIFACTS[2] == a;
    case FtsDb => assert ARTIFACTS[3] == a;
    case StatsJson => assert ARTIFACTS[4] == a;
    case FloatStore => assert ARTIFACTS[5] == a;
  }

  /** Only generations in `gs` were changed or removed. */
  ghost predicate AgreeExcept(d: Disk, d': Disk, gs: set<Generation>) {
    && d'.generations.Keys <= d.generations.Keys
    && AgreeOn(d, d', d.generations.Keys - gs)
  }

  /** Every generation of `d` outside `gs` is still there, unchanged. */
  ghost predicate Keeps(d: Disk, d': Disk, gs: set<Generation>) {
    forall g | g in d.generations && g !in gs :: g in d'.generations && d'.generations[g] == d.generations[g]
  }

  /** The slots and every generation they name are the same. */
  ghost predicate SameManifests(d: Disk, d': Disk) {
    SameSlots(d, d') && AgreeOn(d, d', SlotNames(d.current) + SlotNames(d.prior))
  }

  /** Side files may be removed: under the marker, where they are not followed, or none being left. */
  ghost predicate SidesFree(d: Disk, goal: Goal) {
    d.marker || goal.sides.None? || SidesGone(d, Expected(d, goal))
  }

  /** Changing root and side files under the marker, raising the marker, or changing neither
      keeps a crash point a crash point. */
  lemma CrashPointKept(d: Disk, d': Disk, goal: Goal)
    requires CrashPoint(d, goal) && SameManifests(d, d')
    requires d'.marker || (!d.marker && d'.roots == d.roots)
    requires d'.marker || d'.sidecars == d.sidecars || (SidesFree(d, goal) && d'.sidecars <= d.sidecars)
    ensures CrashPoint(d', goal)
    ensures Expected(d', goal) == Expected(d, goal)
    ensures ChoiceOf(d') == ChoiceOf(d)
  {
    ReadingDependsOnNamed(d, d');
  }

  lemma CrashPointKeptByPruning(d: Disk, d': Disk, goal: Goal)
    requires CrashPoint(d, goal) && Shrinks(d, d', Retained(d))
    requires d'.marker == d.marker && d'.roots == d.roots && d'.sidecars == d.sidecars
    ensures CrashPoint(d', goal)
    ensures ChoiceOf(d') == ChoiceOf(d)
  {
    PruningKeepsTheReading(d, d');
  }

  lemma RootsOnly(d: Disk, d': Disk)
    requires d' == d.(marker := d'.marker, roots := d'.roots, sidecars := d'.sidecars)
    ensures SameManifests(d, d')
  {
  }

  lemma SameCommit(d: Disk, d': Disk)
    requires SameManifests(d, d')
    ensures Committing(d') == Committing(d)
  {
    if d.current.Holds? { VerifiesDependsOnNamed(d, d', d.current.manifest); }
  }

  lemma CommittedIsChosen(d: Disk, goal: Goal)
    requires CrashPoint(d, goal)
    ensures goal.after.Some? && d.current == Holds(goal.after.value) ==> ChoiceOf(d) == Chosen(goal.after.value)
  {
  }

  lemma SettledWithoutMarker(d: Disk, goal: Goal)
    requires CrashPoint(d, goal) && !d.marker
    ensures Restorable(ChoiceOf(d)) ==> Settled(d, ChoiceOf(d))
  {
  }

  lemma RotatesAlike(d: Disk, d': Disk)
    requires SameSlots(d, d') && d'.generations == d.generations
    ensures SlotVerifies(d', d'.current) == SlotVerifies(d, d.current)
  {
    if d.current.Holds? { VerifiesDependsOnNamed(d, d', d.current.manifest); }
  }

  /** Every state of a commit under way is a crash point. */
  lemma CommitCrashPoint(d: Disk, m: Manifest, d': Disk, goal: Goal)
    requires CrashPoint(d, goal) && d.marker && goal.after == Some(m) && d.current != Holds(m)
    requires Verifies(d, m) && Validated(m) && CommitCrash(d, m, d')
    ensures CrashPoint(d', goal)
  {
    CommitKeepsTheRecoveryPoint(d, m, d');
  }

  /** Only generation `g` differs. */
  ghost predicate OnlyWrites(d: Disk, d': Disk, g: Generation) {
    && d' == d.(generations := d'.generations)
    && d'.generations - {g} == d.generations - {g}
  }

  lemma WritingKeeps(d: Disk, d': Disk, g: Generation)
    requires OnlyWrites(d, d', g) && Unnamed(d, g)
    ensures SameManifests(d, d') && Keeps(d, d', {g})
    ensures forall h | h != g :: h in d.generations <==> h in d'.generations
  {
    forall h | h != g
      ensures h in d.generations <==> h in d'.generations
      ensures h in d.generations ==> d.generations[h] == d'.generations[h]
    {
      assert h in d.generations <==> h in d.generations - {g};
      assert h in d'.generations <==> h in d'.generations - {g};
      assert h in d.generations ==> (d.generations - {g})[h] == (d'.generations - {g})[h];
    }
  }

  function FirstSides(n: nat): set<Sidecar>
    requires n <= |SIDECARS|
  {
    set s | s in SIDECARS[..n]
  }

  /** Durable changes of a materialisation: the prepared copies, each side file, each artifact. */
  const MATERIALIZING: nat := 1 + |SIDECARS| + |ARTIFACTS|

  /** Of staging: the directory, each artifact, the rename. */
  function Staging(staged: map<Artifact, Blob>): nat {
    CountIn(staged, |ARTIFACTS|) + 2
  }

  /** Of the commit: two for the candidate, the rotation of a current manifest that verifies, the promotion. */
  function Committing(d: Disk): nat {
    if SlotVerifies(d, d.current) then 4 else 3
  }

  /** The durable changes that a save makes before it promotes its manifest. */
  function PromotionAt(d: Disk, staged: map<Artifact, Blob>, stats: Option<Blob>): nat {
    (if d.marker then 0 else 1) + (if stats.Some? then 1 else 0) + Staging(staged) + 1
    + MATERIALIZING + Committing(d) - 1
  }

  function NewManifest(token: nat, epoch: nat, staged: map<Artifact, Blob>): Manifest
    requires CodeIndex in staged
  {
    Manifest(epoch, map a | a in staged :: Entry(Published(token), staged[a]), Some(staged[CodeIndex].records))
  }

  /** What a generation must be to be published: readable, as many ids as index records and stored vectors (no
      records when there is no list of ids), and databases that open. */
  predicate Sound(files: map<Artifact, Blob>)
    requires CodeIndex in files
  {
    && (ChunkIds !in files ==> files[CodeIndex].records == 0)
    && (ChunkIds in files ==>
          && files[CodeIndex].opens && files[ChunkIds].opens && files[ChunkIds].records == files[CodeIndex].records
          && (FloatStore in files ==>
                files[FloatStore].opens && files[FloatStore].records == files[CodeIndex].records))
    && forall a | a in files && a in {MetadataDb, FtsDb} :: files[a].opens
  }

  lemma NewManifestValidates(token: nat, epoch: nat, staged: map<Artifact, Blob>)
    requires CodeIndex in staged
    ensures Validated(NewManifest(token, epoch, staged)) <==> Sound(staged)
  {
  }

  function Filtered(files: map<Artifact, Blob>, names: seq<Artifact>): map<Artifact, Blob> {
    map a | a in files && a in names :: files[a]
  }

  lemma FilteredNext(files: map<Artifact, Blob>, i: nat)
    requires i < |ARTIFACTS|
    ensures Filtered(files, ARTIFACTS[..i + 1]) ==
            if ARTIFACTS[i] in files then Filtered(files, ARTIFACTS[..i])[ARTIFACTS[i] := files[ARTIFACTS[i]]]
            else Filtered(files, ARTIFACTS[..i])
  {
    assert ARTIFACTS[..i + 1] == ARTIFACTS[..i] + [ARTIFACTS[i]];
  }

  /** How many of the first `i` artifacts are among `files`. */
  function CountIn(files: map<Artifact, Blob>, i: nat): (n: nat)
    requires i <= |ARTIFACTS|
    ensures n <= i
  {
    if i == 0 then 0 else CountIn(files, i - 1) + if ARTIFACTS[i - 1] in files then 1 else 0
  }

  lemma {:induction false} CountGrows(files: map<Artifact, Blob>, i: nat, j: nat)
    requires i <= j <= |ARTIFACTS|
    ensures CountIn(files, i) <= CountIn(files, j)
    ensures i - CountIn(files, i) <= j - CountIn(files, j)
  {
    if i < j { CountGrows(files, i, j - 1); }
  }

  lemma FilteredAll(files: map<Artifact, Blob>)
    ensures Filtered(files, ARTIFACTS[..|ARTIFACTS|]) == files
  {
    assert ARTIFACTS[..|ARTIFACTS|] == ARTIFACTS;
    forall a: Artifact ensures a in ARTIFACTS {
      EveryArtifactIsListed(a);
    }
  }

  lemma PrunedDependsOnManifests(d: Disk, d': Disk)
    requires SameSlots(d, d') && d'.generations == d.generations
    ensures PrunedGenerations(d') == PrunedGenerations(d)
    ensures Retained(d') == Retained(d) && AnyVerifies(d') == AnyVerifies(d)
  {
    if d.current.Holds? { VerifiesDependsOnNamed(d, d', d.current.manifest); }
    if d.prior.Holds? { VerifiesDependsOnNamed(d, d', d.prior.manifest); }
  }

  /** Each manifest file verifies as before. */
  predicate SameVerdicts(d: Disk, d': Disk) {
    && SlotVerifies(d', d'.current) == SlotVerifies(d, d.current)
    && SlotVerifies(d', d'.prior) == SlotVerifies(d, d.prior)
  }

  /** A manifest file that verifies names the generation. */
  predicate NamedBy(d: Disk, slot: Slot, g: Generation) {
    SlotVerifies(d, slot) && g in SlotNames(slot)
  }

  predicate Unnamed(d: Disk, g: Generation) {
    g !in SlotNames(d.current) && g !in SlotNames(d.prior)
  }

  /** The generation names drawn for one save occur nowhere yet. */
  predicate FreshToken(d: Disk, token: nat) {
    && Staged(token) !in d.generations && Published(token) !in d.generations
    && Unnamed(d, Staged(token)) && Unnamed(d, Published(token))
  }

  lemma NewManifestIsNotCommitted(d: Disk, token: nat, epoch: nat, staged: map<Artifact, Blob>)
    requires CodeIndex in staged && FreshToken(d, token)
    ensures d.current != Holds(NewManifest(token, epoch, staged))
    ensures ChoiceOf(d) != Chosen(NewManifest(token, epoch, staged))
  {
    var m := NewManifest(token, epoch, staged);
    assert CodeIndex in m.entries && m.entries[CodeIndex].generation == Published(token);
    assert Published(token) in Named(m);
  }

  lemma NewManifestContents(token: nat, epoch: nat, staged: map<Artifact, Blob>)
    requires CodeIndex in staged
    ensures Contents(Chosen(NewManifest(token, epoch, staged))) == staged
  {
  }

  lemma NewManifestVerifies(d: Disk, token: nat, epoch: nat, staged: map<Artifact, Blob>)
    requires CodeIndex in staged
    requires Published(token) in d.generations && d.generations[Published(token)] == staged
    ensures Verifies(d, NewManifest(token, epoch, staged))
    ensures Contents(Chosen(NewManifest(token, epoch, staged))) == staged
  {
    var m := NewManifest(token, epoch, staged);
    assert CodeIndex in m.entries;
  }

  /** The manifest slots a save can leave behind. */
  predicate SlotsWithin(d: Disk, d': Disk, m: Manifest) {
    && (d'.current == d.current || d'.current == Missing || d'.current == Holds(m))
    && (d'.prior == d.prior || d'.prior == d.current)
  }

  lemma FreshAfterSave(d: Disk, d': Disk, token: nat, epoch: nat, staged: map<Artifact, Blob>)
    requires CodeIndex in staged && FreshToken(d, token)
    requires SlotsWithin(d, d', NewManifest(token, epoch, staged))
    ensures Unnamed(d', Staged(token))
  {
    var m := NewManifest(token, epoch, staged);
    assert forall g | g in Named(m) :: g == Published(token);
  }

  function SaveGoal(before: Choice, staged: Option<map<Artifact, Blob>>, token: nat, epoch: nat): (goal: Goal)
    requires staged.Some? ==> CodeIndex in staged.value
  {
    Goal(before, if staged.Some? then Some(NewManifest(token, epoch, staged.value)) else None, None)
  }

  /** Refuse to replace at least five persisted chunk ids by fewer than half as many. */
  predicate TruncationGuard(d: Disk, chunkCount: nat) {
    && ChunkIds in d.roots && d.roots[ChunkIds].opens
    && d.roots[ChunkIds].records >= 5
    && 2 * chunkCount < d.roots[ChunkIds].records
  }

  lemma InitialCrashPoint(
      d: Disk, before: Choice, staged: Option<map<Artifact, Blob>>, token: nat, epoch: nat)
    requires Pending(d, before) && FreshToken(d, token) && (staged.Some? ==> CodeIndex in staged.value)
    ensures CrashPoint(d, SaveGoal(before, staged, token, epoch))
  {
    if staged.Some? { NewManifestIsNotCommitted(d, token, epoch, staged.value); }
  }

  lemma BeforeTheCut(d: Disk, m: Manifest, goal: Goal)
    requires Pending(d, ChoiceOf(d)) && d.current != Holds(m)
    requires goal == Goal(ChoiceOf(d), Some(m), Some(d.sidecars))
    ensures CrashPoint(d, goal)
  {
  }

  lemma RestorableAtTheCut(c: Disk, goal: Goal)
    requires CrashPoint(c, goal) && Restorable(goal.before)
    ensures Restorable(ChoiceOf(c))
  {
  }

  /** What is left when a save was cut at `c` and recovery has come to `d`. */
  lemma AfterTheCut(d0: Disk, c: Disk, d: Disk, m: Manifest, goal: Goal)
    requires goal == Goal(ChoiceOf(d0), Some(m), Some(d0.sidecars)) && CrashPoint(c, goal)
    requires ChoiceOf(d0) != Chosen(m)
    requires SameSlots(d, c) && ChoiceOf(d) == ChoiceOf(c)
    requires d.sidecars == if c.marker then WithoutSidecars(c, ChoiceOf(c)) else c.sidecars
    ensures d.current == Holds(m) ==> ChoiceOf(d) == Chosen(m) && SidesGone(d, ChoiceOf(d))
    ensures d.current != Holds(m) ==>
              ChoiceOf(d) == ChoiceOf(d0) && (SidesGone(d, ChoiceOf(d)) || d.sidecars == d0.sidecars)
  {
    assert c.marker ==> SidesGone(d, ChoiceOf(d));
  }

  function Tokens(gs: set<Generation>): set<nat> {
    set g | g in gs :: g.token
  }

  lemma SomeNumberIsUnused(used: set<nat>) returns (n: nat)
    ensures forall m | m in used :: m < n
  {
    n := 0;
    var rest := used;
    while rest != {}
      invariant rest <= used && forall m | m in used && m !in rest :: m < n
    {
      var m :| m in rest;
      if n <= m { n := m + 1; }
      rest := rest - {m};
    }
  }

  /** A fresh token always exists; the manager draws one at random. */
  lemma FreshTokenExists(d: Disk)
    ensures exists token: nat :: FreshToken(d, token)
  {
    var all := d.generations.Keys + SlotNames(d.current) + SlotNames(d.prior);
    var n := SomeNumberIsUnused(Tokens(all));
    assert forall g | g in all :: g.token in Tokens(all);
    assert Staged(n) !in all && Published(n) !in all;
    assert FreshToken(d, n);
  }

  /** What a caller does inside `publication_transaction`. */
  datatype BodyStep =
    | Mutate(roots: map<Artifact, Blob>, sidecars: set<Sidecar>)
    | BeginRebuild
    | Save(staged: Option<map<Artifact, Blob>>, chunkCount: nat, stats: Option<Blob>, force: bool, epoch: nat)
    | RaiseError

  predicate SoundStep(step: BodyStep) {
    step.Save? && step.staged.Some? ==> CodeIndex in step.staged.value
  }

  predicate Publishes(step: BodyStep) {
    step.Save? && step.staged.Some?
  }

  /** The body ends with a mutation that no later save publishes. */
  predicate LeavesUnsaved(body: seq<BodyStep>) {
    body != [] &&
    var last := body[|body| - 1];
    !Publishes(last) && (last.Mutate? || last.BeginRebuild? || LeavesUnsaved(body[..|body| - 1]))
  }

  predicate NoSaveAfter(body: seq<BodyStep>, i: int) {
    forall k | i < k < |body| :: k >= 0 ==> !Publishes(body[k])
  }

  predicate Mutates(step: BodyStep) {
    step.Mutate? || step.BeginRebuild?
  }

  lemma NoSaveInPrefix(body: seq<BodyStep>, i: int)
    requires body != [] && !Publishes(body[|body| - 1])
    ensures NoSaveAfter(body[..|body| - 1], i) <==> NoSaveAfter(body, i)
  {
    var less := body[..|body| - 1];
    assert forall k | 0 <= k < |less| :: less[k] == body[k];
    if NoSaveAfter(less, i) {
      forall k | i < k < |body| && k >= 0 ensures !Publishes(body[k]) {
        if k < |less| { assert !Publishes(less[k]); }
      }
    }
  }

  /** Some mutation has no publishing save after it. */
  lemma {:induction false} LeavesUnsavedIff(body: seq<BodyStep>)
    ensures LeavesUnsaved(body) <==> exists i :: 0 <= i < |body| && Mutates(body[i]) && NoSaveAfter(body, i)
  {
    if body != [] {
      var less, last := body[..|body| - 1], body[|body| - 1];
      LeavesUnsavedIff(less);
      if !Publishes(last) {
        assert Mutates(last) ==> Mutates(body[|body| - 1]) && NoSaveAfter(body, |body| - 1);
        forall i | 0 <= i < |less| ensures Mutates(less[i]) == Mutates(body[i]) {
        }
        forall i ensures NoSaveAfter(less, i) <==> NoSaveAfter(body, i) {
          NoSaveInPrefix(body, i);
        }
      }
    }
  }

  /** The last save of an index in the body. */
  function LastSave(body: seq<BodyStep>): Option<BodyStep> {
    if body == [] then None
    else if Publishes(body[|body| - 1]) then Some(body[|body| - 1])
    else LastSave(body[..|body| - 1])
  }

  lemma {:induction false} LastSaveIsLast(body: seq<BodyStep>)
    ensures LastSave(body).None? <==> NoSaveAfter(body, -1)
    ensures LastSave(body).Some? ==>
              exists i ::
                0 <= i < |body| && body[i] == LastSave(body).value && Publishes(body[i]) && NoSaveAfter(body, i)
  {
    if body != [] {
      if Publishes(body[|body| - 1]) {
        assert NoSaveAfter(body, |body| - 1);
      } else {
        var less := body[..|body| - 1];
        LastSaveIsLast(less);
        NoSaveInPrefix(body, -1);
        if LastSave(body).Some? {
          var i :| 0 <= i < |less| && less[i] == LastSave(body).value && Publishes(less[i]) && NoSaveAfter(less, i);
          NoSaveInPrefix(body, i);
          assert body[i] == less[i];
        }
      }
    }
  }

  /** `c` is the generation that the save `step` publishes. */
  predicate Commits(step: BodyStep, c: Choice) {
    && Publishes(step) && c.Chosen?
    && c.manifest.epoch == step.epoch && Contents(c) == step.staged.value && Validated(c.manifest)
  }

  datatype StepExit = StepDone | StepRaised | StepFailed

  datatype TransactionExit = Completed | NotBegun | RaisedByBody | RaisedByStorage | ForgotToSave

  /** Removing manifest files under the marker leads to a clear point. */
  lemma PartialClear(d0: Disk, bare: Disk, d: Disk)
    requires bare.generations == d0.generations && SameSlots(d0, bare) && d.marker
    requires d.generations == d0.generations
    requires d.current == d0.current || d.current == Missing
    requires d.prior == d0.prior || d.prior == Missing
    ensures ClearPoint(d0, d)
  {
    var base := if d.current == d0.current && d.prior == d0.prior then d0
                else if d.prior == d0.prior then d0.(current := Missing)
                else if d.current == d0.current then d0.(prior := Missing)
                else d0.(current := Missing, prior := Missing);
    ReadingDependsOnNamed(base, d);
  }

  // ---------------------------------------------------------------------------
  // The manager
  // ---------------------------------------------------------------------------

  datatype SaveOutcome = SavePublished | SaveSkippedEmpty | SaveRefused | SaveFailed

  class IndexStorage {
    var disk: Disk
    /** What becomes of the durable changes to come; once it is used up, all succeed. */
    var plan: seq<Fate>
    /** Every durable state reached so far, the present one last. */
    var trail: seq<Disk>

    constructor (initial: Disk, fates: seq<Fate>)
      ensures disk == initial && plan == fates && trail == [initial]
    {
      disk, plan, trail := initial, fates, [initial];
    }

    /** How many I/O errors are still to come. */
    function Faults(): nat
      reads this
    {
      Failures(plan)
    }

    /** A power cut at any durable state since position `from` of the trail leaves the
        disk at a crash point of `goal`. */
    ghost predicate Safe(from: nat, goal: Goal)
      reads this
    {
      && from < |trail|
      && trail[|trail| - 1] == disk
      && forall i | from <= i < |trail| :: CrashPoint(trail[i], goal)
    }

    /** The same, except that the present state, made by someone else, may lie outside. */
    ghost predicate Ready(from: nat, goal: Goal)
      reads this
    {
      Safe(from, goal) || (from == |trail| > 0 && trail[|trail| - 1] == disk)
    }

    /** One durable change.  An I/O error may strike before or after it lands. */
    method Durably(next: Disk, ghost from: nat, ghost goal: Goal) returns (ok: bool)
      requires Ready(from, goal) && CrashPoint(next, goal)
      modifies this
      ensures Ready(from, goal) && old(trail) <= trail
      ensures ok || old(Safe(from, goal)) ==> Safe(from, goal)
      ensures disk == if FateOf(old(plan)) == Raises then old(disk) else next
      ensures (ok <==> FateOf(old(plan)) == Lands) && Took(old(plan), plan, 1, ok)
      ensures Faults() == if ok then old(Faults()) else old(Faults()) - 1
    {
      OneChange(plan);
      var fate := FateOf(plan);
      plan := Rest(plan);
      if fate != Raises {
        disk, trail := next, trail + [next];
      }
      ok := fate == Lands;
    }

    /** One durable change that leaves the manifests alone. */
    method Adjust(next: Disk, ghost from: nat, ghost goal: Goal) returns (ok: bool)
      requires Safe(from, goal) && SameManifests(disk, next)
      requires next.marker || (!disk.marker && next.roots == disk.roots)
      requires next.marker || next.sidecars == disk.sidecars
               || (SidesFree(disk, goal) && next.sidecars <= disk.sidecars)
      modifies this
      ensures Safe(from, goal) && old(trail) <= trail
      ensures disk == if FateOf(old(plan)) == Raises then old(disk) else next
      ensures (ok <==> FateOf(old(plan)) == Lands) && Took(old(plan), plan, 1, ok)
      ensures Faults() == if ok then old(Faults()) else old(Faults()) - 1
      ensures ChoiceOf(disk) == ChoiceOf(old(disk)) && Expected(disk, goal) == Expected(old(disk), goal)
    {
      CrashPointKept(disk, next, goal);
      ok := Durably(next, from, goal);
    }

    /** The same as change number `i` of an operation that makes `n`. */
    method AdjustNext(ghost start: seq<Fate>, ghost i: nat, ghost n: nat,
                      next: Disk, ghost from: nat, ghost goal: Goal) returns (ok: bool)
      requires Took(start, plan, i, true) && i < n
      requires Safe(from, goal) && SameManifests(disk, next)
      requires next.marker || (!disk.marker && next.roots == disk.roots)
      requires next.marker || next.sidecars == disk.sidecars
               || (SidesFree(disk, goal) && next.sidecars <= disk.sidecars)
      modifies this
      ensures Safe(from, goal) && old(trail) <= trail
      ensures disk == old(disk) || disk == next
      ensures ok ==> disk == next
      ensures if ok then Took(start, plan, i + 1, true) else Took(start, plan, n, false)
      ensures Faults() == if ok then old(Faults()) else old(Faults()) - 1
      ensures ChoiceOf(disk) == ChoiceOf(old(disk)) && Expected(disk, goal) == Expected(old(disk), goal)
    {
      ghost var before := plan;
      ok := Adjust(next, from, goal);
      ThenTook(start, before, plan, i, 1, ok);
      if !ok { FailedTook(start, plan, plan, i + 1, n); }
    }

    method WriteMarker(ghost from: nat, ghost goal: Goal) returns (ok: bool)
      requires Safe(from, goal)
      modifies this
      ensures Safe(from, goal) && old(trail) <= trail
      ensures disk == old(disk).(marker := true) || disk == old(disk)
      ensures ok ==> disk.marker
      ensures Took(old(plan), plan, 1, ok)
      ensures Faults() == if ok then old(Faults()) else old(Faults()) - 1
    {
      ok := Adjust(disk.(marker := true), from, goal);
    }

    method ClearMarker(ghost from: nat, ghost goal: Goal) returns (ok: bool)
      requires Safe(from, goal) && Restorable(ChoiceOf(disk))
      requires disk.roots == Contents(ChoiceOf(disk))
      requires goal.sides.Some? ==> SidesGone(disk, ChoiceOf(disk))
      modifies this
      ensures Safe(from, goal) && old(trail) <= trail
      ensures disk == old(disk).(marker := false) || disk == old(disk)
      ensures ok ==> !disk.marker
      ensures ChoiceOf(disk) == ChoiceOf(old(disk))
      ensures Took(old(plan), plan, 1, ok)
      ensures Faults() == if ok then old(Faults()) else old(Faults()) - 1
    {
      var next := disk.(marker := false);
      ReadingDependsOnNamed(disk, next);
      ok := Durably(next, from, goal);
    }

    /** `_mark_working_set_dirty`: nothing to do once the marker is up. */
    method MarkWorkingSetDirty(ghost from: nat, ghost goal: Goal) returns (ok: bool)
      requires Safe(from, goal)
      modifies this
      ensures Safe(from, goal) && old(trail) <= trail
      ensures disk == old(disk).(marker := true) || disk == old(disk)
      ensures ok ==> disk.marker
      ensures Took(old(plan), plan, if old(disk).marker then 0 else 1, ok)
      ensures Faults() == if ok then old(Faults()) else old(Faults()) - 1
    {
      ok := true;
      NoChange(plan);
      if !disk.marker {
        ok := WriteMarker(from, goal);
      }
    }

    // -------------------------------------------------------------------------
    // Root mirrors
    // -------------------------------------------------------------------------

    method RemoveSidecars(ghost from: nat, ghost goal: Goal) returns (ok: bool)
      requires Safe(from, goal) && SidesFree(disk, goal)
      modifies this
      ensures Safe(from, goal) && old(trail) <= trail
      ensures disk == old(disk).(sidecars := disk.sidecars)
      ensures old(disk).sidecars - (set s | s in SIDECARS) <= disk.sidecars <= old(disk).sidecars
      ensures ok ==> disk.sidecars == old(disk).sidecars - (set s | s in SIDECARS)
      ensures ChoiceOf(disk) == ChoiceOf(old(disk))
      ensures Took(old(plan), plan, |SIDECARS|, ok)
      ensures Faults() == if ok then old(Faults()) else old(Faults()) - 1
    {
      hide CrashPoint, ChoiceOf, Failures, Took;
      ok := true;
      NoChange(plan);
      for i := 0 to |SIDECARS|
        invariant ok && Safe(from, goal) && old(trail) <= trail && Faults() == old(Faults())
        invariant Took(old(plan), plan, i, true)
        invariant disk == old(disk).(sidecars := old(disk).sidecars - FirstSides(i))
        invariant ChoiceOf(disk) == ChoiceOf(old(disk))
      {
        var next := disk.(sidecars := disk.sidecars - {SIDECARS[i]});
        assert SIDECARS[..i + 1] == SIDECARS[..i] + [SIDECARS[i]];
        assert next.sidecars == old(disk).sidecars - FirstSides(i + 1);
        ok := AdjustNext(old(plan), i, |SIDECARS|, next, from, goal);
        if !ok { return; }
      }
      assert SIDECARS[..|SIDECARS|] == SIDECARS;
    }

    /** Replace or remove the root files one by one until they are exactly `target`.
        Without a marker this is allowed only when they already are. */
    method MirrorRoots(target: map<Artifact, Blob>, ghost from: nat, ghost goal: Goal) returns (ok: bool)
      requires Safe(from, goal)
      requires disk.marker || disk.roots == target
      modifies this
      ensures Safe(from, goal) && old(trail) <= trail
      ensures disk == old(disk).(roots := disk.roots)
      ensures ok ==> disk.roots == target
      ensures !old(disk).marker ==> disk.roots == old(disk).roots
      ensures ChoiceOf(disk) == ChoiceOf(old(disk))
      ensures Took(old(plan), plan, |ARTIFACTS|, ok)
      ensures Faults() == if ok then old(Faults()) else old(Faults()) - 1
    {
      hide CrashPoint, ChoiceOf, Failures, Took;
      ghost var absent := |ARTIFACTS| - CountIn(target, |ARTIFACTS|);
      ok := DropRoots(target, from, goal);
      ghost var p := plan;
      if !ok {
        FailedTook(old(plan), p, p, absent, |ARTIFACTS|);
        return;
      }
      ok := CopyRoots(target, from, goal);
      ThenTook(old(plan), p, plan, absent, CountIn(target, |ARTIFACTS|), ok);
      if !ok { return; }
      forall a: Artifact ensures a in disk.roots <==> a in target {
        EveryArtifactIsListed(a);
      }
      forall a | a in target ensures disk.roots[a] == target[a] {
        EveryArtifactIsListed(a);
      }
    }

    /** Remove the root files that `target` does not have. */
    method DropRoots(target: map<Artifact, Blob>, ghost from: nat, ghost goal: Goal) returns (ok: bool)
      requires Safe(from, goal)
      requires disk.marker || disk.roots == target
      modifies this
      ensures Safe(from, goal) && old(trail) <= trail
      ensures disk == old(disk).(roots := disk.roots)
      ensures !old(disk).marker ==> disk.roots == old(disk).roots
      ensures ok ==> forall k | 0 <= k < |ARTIFACTS| && ARTIFACTS[k] !in target :: ARTIFACTS[k] !in disk.roots
      ensures ChoiceOf(disk) == ChoiceOf(old(disk))
      ensures Took(old(plan), plan, |ARTIFACTS| - CountIn(target, |ARTIFACTS|), ok)
      ensures Faults() == if ok then old(Faults()) else old(Faults()) - 1
    {
      hide CrashPoint, ChoiceOf, Failures, Took, Safe, SidesFree, Expected, AgreeOn, SameManifests, SlotNames;
      ok := true;
      NoChange(plan);
      for i := 0 to |ARTIFACTS|
        invariant ok && Safe(from, goal) && old(trail) <= trail && Faults() == old(Faults())
        invariant Took(old(plan), plan, i - CountIn(target, i), true)
        invariant disk == old(disk).(roots := disk.roots)
        invariant !old(disk).marker ==> disk.roots == old(disk).roots
        invariant ChoiceOf(disk) == ChoiceOf(old(disk))
        invariant forall k | 0 <= k < i && ARTIFACTS[k] !in target :: ARTIFACTS[k] !in disk.roots
      {
        if ARTIFACTS[i] !in target {
          var next := disk.(roots := disk.roots - {ARTIFACTS[i]});
          RootsOnly(disk, next);
          assert ARTIFACTS[i] !in disk.roots ==> next.roots == disk.roots;
          CountGrows(target, i + 1, |ARTIFACTS|);
          ok := AdjustNext(old(plan), i - CountIn(target, i), |ARTIFACTS| - CountIn(target, |ARTIFACTS|),
                           next, from, goal);
          if !ok { return; }
        }
      }
    }

    /** Replace the root files by those of `target`. */
    method CopyRoots(target: map<Artifact, Blob>, ghost from: nat, ghost goal: Goal) returns (ok: bool)
      requires Safe(from, goal)
      requires disk.marker || disk.roots == target
      modifies this
      ensures Safe(from, goal) && old(trail) <= trail
      ensures disk == old(disk).(roots := disk.roots)
      ensures !old(disk).marker ==> disk.roots == old(disk).roots
      ensures forall a | a in disk.roots :: a in old(disk).roots || a in target
      ensures ok ==> forall k | 0 <= k < |ARTIFACTS| && ARTIFACTS[k] in target ::
                         ARTIFACTS[k] in disk.roots && disk.roots[ARTIFACTS[k]] == target[ARTIFACTS[k]]
      ensures ChoiceOf(disk) == ChoiceOf(old(disk))
      ensures Took(old(plan), plan, CountIn(target, |ARTIFACTS|), ok)
      ensures Faults() == if ok then old(Faults()) else old(Faults()) - 1
    {
      hide CrashPoint, ChoiceOf, Failures, Took, Safe, SidesFree, Expected, AgreeOn, SameManifests, SlotNames;
      ok := true;
      NoChange(plan);
      for i := 0 to |ARTIFACTS|
        invariant ok && Safe(from, goal) && old(trail) <= trail && Faults() == old(Faults())
        invariant Took(old(plan), plan, CountIn(target, i), true)
        invariant disk == old(disk).(roots := disk.roots)
        invariant !old(disk).marker ==> disk.roots == old(disk).roots
        invariant ChoiceOf(disk) == ChoiceOf(old(disk))
        invariant forall a | a in disk.roots :: a in old(disk).roots || a in target
        invariant forall k | 0 <= k < i && ARTIFACTS[k] in target ::
                    ARTIFACTS[k] in disk.roots && disk.roots[ARTIFACTS[k]] == target[ARTIFACTS[k]]
      {
        if ARTIFACTS[i] in target {
          var next := disk.(roots := disk.roots[ARTIFACTS[i] := target[ARTIFACTS[i]]]);
          RootsOnly(disk, next);
          assert disk.roots == target ==> next.roots == disk.roots;
          CountGrows(target, i + 1, |ARTIFACTS|);
          ok := AdjustNext(old(plan), CountIn(target, i), CountIn(target, |ARTIFACTS|), next, from, goal);
          if !ok { return; }
        }
      }
    }

    /** `_materialize_generation`: copies are prepared beside the roots first, then the
        SQLite side files go, then the roots change. */
    method MaterializeGeneration(m: Manifest, ghost from: nat, ghost goal: Goal) returns (ok: bool)
      requires Safe(from, goal) && SidesFree(disk, goal)
      requires Verifies(disk, m)
      requires disk.marker || disk.roots == Contents(Chosen(m))
      modifies this
      ensures Safe(from, goal) && old(trail) <= trail
      ensures disk == old(disk).(roots := disk.roots, sidecars := disk.sidecars)
      ensures ok ==> disk.roots == Contents(Chosen(m))
      ensures old(disk).sidecars - (set s | s in SIDECARS) <= disk.sidecars <= old(disk).sidecars
      ensures ok ==> disk.sidecars == old(disk).sidecars - (set s | s in SIDECARS)
      ensures !old(disk).marker ==> disk.roots == old(disk).roots
      ensures ChoiceOf(disk) == ChoiceOf(old(disk))
      ensures Took(old(plan), plan, MATERIALIZING, ok)
      ensures Faults() == if ok then old(Faults()) else old(Faults()) - 1
    {
      hide CrashPoint, ChoiceOf, Failures, Took, Verifies, FilesOf, Contents;
      var prepared := FilesOf(disk, m);
      VerifiedFiles(disk, m);
      ok := Durably(disk, from, goal);
      ghost var p := plan;
      if !ok {
        FailedTook(old(plan), p, p, 1, MATERIALIZING);
        return;
      }
      ok := RemoveSidecars(from, goal);
      ThenTook(old(plan), p, plan, 1, |SIDECARS|, ok);
      p := plan;
      if !ok {
        FailedTook(old(plan), p, p, 1 + |SIDECARS|, MATERIALIZING);
        return;
      }
      ok := MirrorRoots(prepared, from, goal);
      ThenTook(old(plan), p, plan, 1 + |SIDECARS|, |ARTIFACTS|, ok);
    }

    method DiscardArtifact(a: Artifact, ghost from: nat, ghost goal: Goal) returns (ok: bool)
      requires Safe(from, goal) && SidesFree(disk, goal)
      requires disk.marker || a !in disk.roots
      modifies this
      ensures Safe(from, goal) && old(trail) <= trail
      ensures disk == old(disk).(roots := disk.roots, sidecars := disk.sidecars)
      ensures disk.roots == old(disk).roots || (old(disk).marker && disk.roots == old(disk).roots - {a})
      ensures ok ==> disk.roots == old(disk).roots - {a}
      ensures old(disk).sidecars - {Sidecar(a, Wal), Sidecar(a, Shm)} <= disk.sidecars <= old(disk).sidecars
      ensures ok ==> disk.sidecars == old(disk).sidecars - {Sidecar(a, Wal), Sidecar(a, Shm)}
      ensures SidesFree(disk, goal)
      ensures ChoiceOf(disk) == ChoiceOf(old(disk))
      ensures Faults() == if ok then old(Faults()) else old(Faults()) - 1
    {
      hide CrashPoint, ChoiceOf, Failures;
      var next := disk.(roots := disk.roots - {a});
      assert a !in disk.roots ==> next.roots == disk.roots;
      ok := Adjust(next, from, goal);
      if !ok { return; }
      next := disk.(sidecars := disk.sidecars - {Sidecar(a, Wal)});
      ok := Adjust(next, from, goal);
      if !ok { return; }
      next := disk.(sidecars := disk.sidecars - {Sidecar(a, Shm)});
      ok := Adjust(next, from, goal);
    }

    /** `_discard_unpublished_working_set`: the root files with their WAL and SHM side
        files.  Rollback journals are not on its list. */
    method DiscardWorkingSet(ghost from: nat, ghost goal: Goal) returns (ok: bool)
      requires Safe(from, goal) && SidesFree(disk, goal)
      requires disk.marker || disk.roots == map[]
      modifies this
      ensures Safe(from, goal) && old(trail) <= trail
      ensures disk == old(disk).(roots := disk.roots, sidecars := disk.sidecars)
      ensures ok ==> disk.roots == map[]
      ensures (set s | s in old(disk).sidecars && s.suffix.Journal?) <= disk.sidecars <= old(disk).sidecars
      ensures ok ==> disk.sidecars == set s | s in old(disk).sidecars && s.suffix.Journal?
      ensures !old(disk).marker ==> disk.roots == old(disk).roots
      ensures ChoiceOf(disk) == ChoiceOf(old(disk))
      ensures Faults() <= old(Faults()) && (!ok ==> Faults() < old(Faults()))
    {
      hide CrashPoint, ChoiceOf, Failures;
      ok := true;
      for i := 0 to |ARTIFACTS|
        invariant ok && Safe(from, goal) && old(trail) <= trail && Faults() == old(Faults())
        invariant disk == old(disk).(roots := disk.roots, sidecars := disk.sidecars)
        invariant !old(disk).marker ==> disk.roots == old(disk).roots
        invariant SidesFree(disk, goal)
        invariant forall a | a in disk.roots :: a !in ARTIFACTS[..i]
        invariant disk.sidecars ==
          set s | s in old(disk).sidecars && (s.suffix.Journal? || s.database !in ARTIFACTS[..i])
        invariant ChoiceOf(disk) == ChoiceOf(old(disk))
      {
        assert ARTIFACTS[..i + 1] == ARTIFACTS[..i] + [ARTIFACTS[i]];
        ok := DiscardArtifact(ARTIFACTS[i], from, goal);
        if !ok { return; }
      }
      assert ARTIFACTS[..|ARTIFACTS|] == ARTIFACTS;
      forall a: Artifact ensures a in ARTIFACTS {
        EveryArtifactIsListed(a);
      }
    }

    // -------------------------------------------------------------------------
    // Generations
    // -------------------------------------------------------------------------

    /** Remove a directory tree no verified manifest names.  It disappears in pieces. */
    method RemoveGeneration(g: Generation, ghost from: nat, ghost goal: Goal) returns (ok: bool)
      requires Safe(from, goal) && g !in Retained(disk)
      modifies this
      ensures Safe(from, goal) && old(trail) <= trail
      ensures disk == old(disk).(generations := disk.generations)
      ensures Shrinks(old(disk), disk, Retained(old(disk)))
      ensures forall h | h in old(disk).generations && h != g ::
                h in disk.generations && disk.generations[h] == old(disk).generations[h]
      ensures ok ==> disk.generations == old(disk).generations - {g}
      ensures ChoiceOf(disk) == ChoiceOf(old(disk)) && Retained(disk) == Retained(old(disk))
      ensures AnyVerifies(disk) == AnyVerifies(old(disk)) && SameVerdicts(old(disk), disk)
      ensures Faults() == if ok then old(Faults()) else old(Faults()) - 1
    {
      hide CrashPoint, ChoiceOf, SlotVerifies, AnyVerifies, Retained, Took, Failures;
      ok := true;
      if g in disk.generations {
        var removed: set<Artifact> := *;
        ok := ShrinkTo(disk.generations[g := disk.generations[g] - removed], from, goal);
        if !ok { return; }
      }
      assert disk.generations.Keys == old(disk).generations.Keys;
      ok := ShrinkTo(disk.generations - {g}, from, goal);
    }

    /** One durable deletion inside generations no verified manifest names. */
    method ShrinkTo(next: map<Generation, map<Artifact, Blob>>, ghost from: nat, ghost goal: Goal) returns (ok: bool)
      requires Safe(from, goal) && Shrinks(disk, disk.(generations := next), Retained(disk))
      modifies this
      ensures Safe(from, goal) && old(trail) <= trail
      ensures disk == old(disk) || disk == old(disk).(generations := next)
      ensures ok ==> disk == old(disk).(generations := next)
      ensures ChoiceOf(disk) == ChoiceOf(old(disk)) && Retained(disk) == Retained(old(disk))
      ensures AnyVerifies(disk) == AnyVerifies(old(disk)) && SameVerdicts(old(disk), disk)
      ensures Faults() == if ok then old(Faults()) else old(Faults()) - 1
    {
      var after := disk.(generations := next);
      CrashPointKeptByPruning(disk, after, goal);
      PruningKeepsTheReading(disk, after);
      ok := Durably(after, from, goal);
    }

    /** Remove every generation in `doomed`; a failure on one is logged and skipped when
        `bestEffort` holds. */
    method RemoveGenerations(doomed: set<Generation>, bestEffort: bool, ghost from: nat, ghost goal: Goal)
      returns (ok: bool)
      requires Safe(from, goal) && doomed !! Retained(disk)
      modifies this
      ensures Safe(from, goal) && old(trail) <= trail
      ensures disk == old(disk).(generations := disk.generations)
      ensures Faults() == old(Faults()) || (ok && !bestEffort) ==> disk.generations == old(disk).generations - doomed
      ensures ChoiceOf(disk) == ChoiceOf(old(disk)) && SameVerdicts(old(disk), disk)
      ensures AgreeExcept(old(disk), disk, doomed)
      ensures Faults() <= old(Faults()) && (!ok ==> Faults() < old(Faults()))
      ensures bestEffort ==> ok
    {
      hide CrashPoint, ChoiceOf, SlotVerifies, AnyVerifies, Retained, Took, Failures;
      var todo := doomed;
      while todo != {}
        invariant todo <= doomed && Safe(from, goal) && old(trail) <= trail
        invariant disk == old(disk).(generations := disk.generations)
        invariant Faults() <= old(Faults()) && (!bestEffort ==> Faults() == old(Faults()))
        invariant Faults() == old(Faults()) ==> disk.generations == old(disk).generations - (doomed - todo)
        invariant ChoiceOf(disk) == ChoiceOf(old(disk)) && Retained(disk) == Retained(old(disk))
        invariant SameVerdicts(old(disk), disk)
        invariant AgreeExcept(old(disk), disk, doomed)
      {
        var g :| g in todo;
        ok := RemoveGeneration(g, from, goal);
        if !ok && !bestEffort { return; }
        todo := todo - {g};
      }
      ok := true;
    }

    /** `_prune_unreferenced_generations`. */
    method Prune(ghost from: nat, ghost goal: Goal)
      requires Safe(from, goal)
      modifies this
      ensures Safe(from, goal) && old(trail) <= trail
      ensures disk == old(disk).(generations := disk.generations)
      ensures Faults() == old(Faults()) ==> disk.generations == PrunedGenerations(old(disk))
      ensures Faults() == old(Faults()) && AnyVerifies(old(disk)) ==> forall g :: g in disk.generations <==>
                g in old(disk).generations && (NamedBy(old(disk), disk.current, g) || NamedBy(old(disk), disk.prior, g))
      ensures ChoiceOf(disk) == ChoiceOf(old(disk))
      ensures SameVerdicts(old(disk), disk)
      ensures Faults() <= old(Faults())
    {
      if AnyVerifies(disk) {
        var doomed := disk.generations.Keys - Retained(disk);
        var _ := RemoveGenerations(doomed, true, from, goal);
        assert old(disk).generations - doomed == PrunedGenerations(old(disk));
      }
    }

    /** Create or extend an unpublished generation. */
    method WriteGeneration(g: Generation, files: map<Artifact, Blob>, ghost from: nat, ghost goal: Goal)
      returns (ok: bool)
      requires Safe(from, goal) && disk.marker && Unnamed(disk, g)
      modifies this
      ensures Safe(from, goal) && old(trail) <= trail
      ensures OnlyWrites(old(disk), disk, g)
      ensures ok ==> g in disk.generations && disk.generations[g] == files
      ensures ChoiceOf(disk) == ChoiceOf(old(disk))
      ensures Took(old(plan), plan, 1, ok)
      ensures Faults() == if ok then old(Faults()) else old(Faults()) - 1
    {
      var next := disk.(generations := disk.generations[g := files]);
      ok := Adjust(next, from, goal);
    }

    /** `_write_candidate_generation`: the artifacts land in a staging directory one by one. */
    method WriteCandidateGeneration(dir: Generation, staged: map<Artifact, Blob>, ghost from: nat, ghost goal: Goal)
      returns (ok: bool)
      requires Safe(from, goal) && disk.marker && Unnamed(disk, dir)
      modifies this
      ensures Safe(from, goal) && old(trail) <= trail
      ensures OnlyWrites(old(disk), disk, dir)
      ensures ok ==> dir in disk.generations && disk.generations[dir] == staged
      ensures ChoiceOf(disk) == ChoiceOf(old(disk))
      ensures Took(old(plan), plan, 1 + CountIn(staged, |ARTIFACTS|), ok)
      ensures Faults() == if ok then old(Faults()) else old(Faults()) - 1
    {
      var written: map<Artifact, Blob> := map[];
      hide Took, CrashPoint, ChoiceOf, Failures, Safe, SlotNames;
      ok := WriteGeneration(dir, written, from, goal);
      if !ok {
        FailedTook(old(plan), plan, plan, 1, 1 + CountIn(staged, |ARTIFACTS|));
        return;
      }
      assert Filtered(staged, ARTIFACTS[..0]) == written;
      for i := 0 to |ARTIFACTS|
        invariant ok && Safe(from, goal) && old(trail) <= trail && Faults() == old(Faults())
        invariant Took(old(plan), plan, 1 + CountIn(staged, i), true)
        invariant OnlyWrites(old(disk), disk, dir)
        invariant dir in disk.generations && disk.generations[dir] == written
        invariant written == Filtered(staged, ARTIFACTS[..i])
        invariant ChoiceOf(disk) == ChoiceOf(old(disk))
      {
        FilteredNext(staged, i);
        if ARTIFACTS[i] in staged {
          written := written[ARTIFACTS[i] := staged[ARTIFACTS[i]]];
          ghost var p := plan;
          ok := WriteGeneration(dir, written, from, goal);
          ThenTook(old(plan), p, plan, 1 + CountIn(staged, i), 1, ok);
          if !ok {
            CountGrows(staged, i + 1, |ARTIFACTS|);
            FailedTook(old(plan), plan, plan, 1 + CountIn(staged, i + 1), 1 + CountIn(staged, |ARTIFACTS|));
            return;
          }
        }
      }
      FilteredAll(staged);
    }

    /** Stage a generation, and rename it to its published name once it validates. */
    method StageGeneration(staged: map<Artifact, Blob>, token: nat, epoch: nat, ghost from: nat, ghost goal: Goal)
      returns (ok: bool)
      requires CodeIndex in staged
      requires Safe(from, goal) && disk.marker && FreshToken(disk, token)
      modifies this
      ensures Safe(from, goal) && old(trail) <= trail
      ensures disk == old(disk).(generations := disk.generations)
      ensures SameManifests(old(disk), disk)
      ensures Keeps(old(disk), disk, {Staged(token), Published(token)})
      ensures ok ==> Published(token) in disk.generations && disk.generations[Published(token)] == staged
      ensures ok ==> Validated(NewManifest(token, epoch, staged))
      ensures ChoiceOf(disk) == ChoiceOf(old(disk))
      ensures Faults() <= old(Faults())
      ensures !ok ==> Faults() < old(Faults()) || !Validated(NewManifest(token, epoch, staged))
      ensures Validated(NewManifest(token, epoch, staged)) ==> Took(old(plan), plan, Staging(staged), ok)
    {
      hide Took;
      ok := WriteCandidateGeneration(Staged(token), staged, from, goal);
      WritingKeeps(old(disk), disk, Staged(token));
      if !ok {
        FailedTook(old(plan), plan, plan, Staging(staged) - 1, Staging(staged));
        return;
      }
      if !Validated(NewManifest(token, epoch, staged)) {
        return false;
      }
      var next := disk.(generations := (disk.generations - {Staged(token)})[Published(token) := staged]);
      ok := AdjustNext(old(plan), Staging(staged) - 1, Staging(staged), next, from, goal);
    }

    // -------------------------------------------------------------------------
    // Manifest commit
    // -------------------------------------------------------------------------

    /** `commit_manifest`: write the candidate, rotate a current manifest that still
        verifies, promote the candidate. */
    method CommitManifest(m: Manifest, ghost from: nat, ghost goal: Goal) returns (ok: bool)
      requires Safe(from, goal) && disk.marker
      requires goal.after == Some(m) && disk.current != Holds(m) && Verifies(disk, m) && Validated(m)
      modifies this
      ensures Safe(from, goal) && old(trail) <= trail
      ensures ok ==> disk == Promoted(Rotated(old(disk).(candidate := Holds(m))))
      ensures CommitCrash(old(disk), m, disk)
      ensures disk.current == Holds(m) <==> Reaches(old(plan), Committing(old(disk)) - 1)
      ensures Took(old(plan), plan, Committing(old(disk)), ok)
      ensures Faults() == if ok then old(Faults()) else old(Faults()) - 1
    {
      hide CrashPoint, Failures, Verifies, Validated, Took, Reaches;
      ghost var d0, n := disk, Committing(disk);
      NoChange(plan);
      ok := CommitNext(old(plan), 0, n, disk.(candidate := Unreadable), m, d0, from, goal);
      if !ok { return; }
      ok := CommitNext(old(plan), 1, n, disk.(candidate := Holds(m)), m, d0, from, goal);
      if !ok { return; }
      RotatesAlike(d0, disk);
      if SlotVerifies(disk, disk.current) {
        ok := CommitNext(old(plan), 2, n, disk.(prior := disk.current, current := Missing), m, d0, from, goal);
        if !ok { return; }
      }
      assert disk == Rotated(d0.(candidate := Holds(m)));
      ok := CommitNext(old(plan), n - 1, n, disk.(current := Holds(m), candidate := Missing), m, d0, from, goal);
    }

    /** Change number `i` of the `n` that a commit makes. */
    method CommitNext(ghost start: seq<Fate>, ghost i: nat, ghost n: nat, next: Disk, ghost m: Manifest,
                      ghost d0: Disk, ghost from: nat, ghost goal: Goal) returns (ok: bool)
      requires Took(start, plan, i, true) && i < n
      requires Safe(from, goal) && CrashPoint(d0, goal) && d0.marker && goal.after == Some(m) && d0.current != Holds(m)
      requires Verifies(d0, m) && Validated(m) && CommitCrash(d0, m, next)
      modifies this
      ensures Safe(from, goal) && old(trail) <= trail
      ensures disk == if FateOf(old(plan)) == Raises then old(disk) else next
      ensures Reaches(start, i) <==> FateOf(old(plan)) != Raises
      ensures if ok then Took(start, plan, i + 1, true) && disk == next else Took(start, plan, n, false)
      ensures !ok && i < n - 1 ==> !Reaches(start, n - 1)
      ensures Faults() == if ok then old(Faults()) else old(Faults()) - 1
    {
      hide Reaches, Failures;
      ghost var before := plan;
      CommitCrashPoint(d0, m, next, goal);
      OneChange(plan);
      ThenReaches(start, plan, i, 0);
      ok := Durably(next, from, goal);
      ThenTook(start, before, plan, i, 1, ok);
      if !ok {
        FailedTook(start, plan, plan, i + 1, n);
        if i < n - 1 { FailedTook(start, plan, plan, i + 1, n - 1); }
      }
    }

    // -------------------------------------------------------------------------
    // Restoring and recovering
    // -------------------------------------------------------------------------

    /** `_restore_last_published_generation`.  It raises when the manifests are broken or
        the selected generation does not validate. */
    method RestoreLastPublished(ghost from: nat, ghost goal: Goal) returns (ok: bool)
      requires Safe(from, goal) && SidesFree(disk, goal)
      modifies this
      ensures Safe(from, goal) && old(trail) <= trail
      ensures disk == old(disk).(roots := disk.roots, sidecars := disk.sidecars)
      ensures ok ==> Restorable(ChoiceOf(disk)) && disk.roots == Contents(ChoiceOf(disk))
      ensures ok ==> SidesGone(disk, ChoiceOf(disk))
      ensures !Restorable(ChoiceOf(old(disk))) ==> !ok && disk == old(disk)
      ensures ChoiceOf(disk) == ChoiceOf(old(disk))
      ensures Faults() <= old(Faults())
      ensures !ok && Restorable(ChoiceOf(disk)) ==> Faults() < old(Faults())
      ensures forall m | Selects(old(disk), m) && Validated(m) ::
                if ok then disk.roots == Contents(Chosen(m)) else Faults() < old(Faults())
    {
      ReadingIsExact(disk);
      var reading := ReadWithFallback(disk);
      if reading.manifest.Some? {
        if !Validated(reading.manifest.value) {
          return false;
        }
        ok := MaterializeGeneration(reading.manifest.value, from, goal);
      } else if !disk.current.Missing? || !disk.prior.Missing? {
        return false;
      } else {
        ok := DiscardWorkingSet(from, goal);
      }
    }

    /** Restore and drop the marker, as every failure path does. */
    method RollBack(ghost from: nat, ghost goal: Goal) returns (ok: bool)
      requires Safe(from, goal) && SidesFree(disk, goal)
      modifies this
      ensures Safe(from, goal) && old(trail) <= trail
      ensures disk.generations == old(disk).generations && SameSlots(disk, old(disk))
      ensures ChoiceOf(disk) == ChoiceOf(old(disk))
      ensures ok ==> Restorable(ChoiceOf(disk)) && Settled(disk, ChoiceOf(disk))
      ensures Faults() <= old(Faults())
      ensures !ok && Restorable(ChoiceOf(disk)) ==> Faults() < old(Faults())
      ensures forall m | Selects(old(disk), m) && Validated(m) ::
                if ok then disk.roots == Contents(Chosen(m)) else Faults() < old(Faults())
    {
      ok := RestoreLastPublished(from, goal);
      if !ok { return; }
      ok := ClearMarker(from, goal);
    }

    /** `_recover_published_generation`. */
    method Recover(ghost from: nat, ghost goal: Goal) returns (ok: bool)
      requires Safe(from, goal)
      modifies this
      ensures Safe(from, goal) && old(trail) <= trail
      ensures SameSlots(disk, old(disk)) && ChoiceOf(disk) == ChoiceOf(old(disk))
      ensures Faults() == old(Faults()) ==> disk == Recovered(old(disk))
      ensures ok && Restorable(ChoiceOf(disk)) ==> Settled(disk, ChoiceOf(disk))
      ensures ok ==> !disk.marker
      ensures old(disk).marker && !disk.marker ==> disk.sidecars == WithoutSidecars(old(disk), ChoiceOf(disk))
      ensures old(disk).marker ==> WithoutSidecars(disk, ChoiceOf(disk)) == WithoutSidecars(old(disk), ChoiceOf(disk))
      ensures !old(disk).marker ==> disk == old(disk)
      ensures Faults() <= old(Faults())
      ensures !ok && Restorable(ChoiceOf(disk)) ==> Faults() < old(Faults())
      ensures old(disk).marker ==> forall m | Selects(old(disk), m) && Validated(m) ::
                if ok then disk.roots == Contents(Chosen(m)) else Faults() < old(Faults())
    {
      ReadingIsExact(disk);
      hide CrashPoint, Failures;
      if !disk.marker {
        SettledWithoutMarker(disk, goal);
        return true;
      }
      var reading := ReadWithFallback(disk);
      if reading.manifest.None? {
        if !reading.freshness.Absent? {
          return false;
        }
        ok := RecoverNothing(from, goal);
      } else {
        if !Validated(reading.manifest.value) {
          return false;
        }
        ok := RecoverChosen(reading.manifest.value, from, goal);
      }
    }

    /** Nothing was ever committed: everything staged or mirrored goes. */
    method RecoverNothing(ghost from: nat, ghost goal: Goal) returns (ok: bool)
      requires Safe(from, goal) && disk.marker && ChoiceOf(disk).NoneEver?
      modifies this
      ensures Safe(from, goal) && old(trail) <= trail
      ensures SameSlots(disk, old(disk)) && ChoiceOf(disk) == ChoiceOf(old(disk))
      ensures ok ==> disk == Recovered(old(disk))
      ensures disk.marker || disk == Recovered(old(disk))
      ensures WithoutSidecars(disk, NoneEver) == WithoutSidecars(old(disk), NoneEver)
      ensures Faults() <= old(Faults()) && (!ok ==> Faults() < old(Faults()))
    {
      hide CrashPoint, Failures;
      ok := DiscardWorkingSet(from, goal);
      if !ok { return; }
      ok := RemoveGenerations(disk.generations.Keys, false, from, goal);
      if !ok { return; }
      ok := ClearMarker(from, goal);
    }

    /** A validated generation is selected: mirror it, drop the marker, prune. */
    method RecoverChosen(m: Manifest, ghost from: nat, ghost goal: Goal) returns (ok: bool)
      requires Safe(from, goal) && disk.marker && ChoiceOf(disk) == Chosen(m) && Validated(m)
      modifies this
      ensures Safe(from, goal) && old(trail) <= trail
      ensures SameSlots(disk, old(disk)) && ChoiceOf(disk) == ChoiceOf(old(disk))
      ensures Faults() == old(Faults()) ==> disk == Recovered(old(disk))
      ensures ok ==> Settled(disk, Chosen(m))
      ensures !disk.marker ==> disk.sidecars == WithoutSidecars(old(disk), Chosen(m))
      ensures WithoutSidecars(disk, Chosen(m)) == WithoutSidecars(old(disk), Chosen(m))
      ensures Faults() <= old(Faults()) && (!ok ==> Faults() < old(Faults()))
    {
      hide CrashPoint, Failures;
      ok := MaterializeGeneration(m, from, goal);
      if !ok { return; }
      ghost var mirrored := disk;
      ReadingDependsOnNamed(old(disk), mirrored);
      ok := ClearMarker(from, goal);
      if !ok { return; }
      PrunedDependsOnManifests(old(disk), disk);
      Prune(from, goal);
    }

    // -------------------------------------------------------------------------
    // Saving
    // -------------------------------------------------------------------------

    /** The last part of a save: mirror a staged and validated generation, commit its
        manifest, drop the marker. */
    method MirrorAndCommit(m: Manifest, ghost from: nat, ghost goal: Goal) returns (ok: bool)
      requires Safe(from, goal) && disk.marker
      requires goal.after == Some(m) && disk.current != Holds(m)
      requires Verifies(disk, m) && Validated(m)
      modifies this
      ensures Safe(from, goal) && old(trail) <= trail
      ensures SlotsWithin(old(disk), disk, m) && disk.generations == old(disk).generations
      ensures ok ==> Settled(disk, Chosen(m)) && disk.current == Holds(m)
      ensures ok ==> disk.sidecars == old(disk).sidecars - (set s | s in SIDECARS)
      ensures SidesFree(disk, goal)
      ensures disk.current == Holds(m) <==> Reaches(old(plan), MATERIALIZING + Committing(old(disk)) - 1)
      ensures Took(old(plan), plan, MATERIALIZING + Committing(old(disk)) + 1, ok)
      ensures Faults() == if ok then old(Faults()) else old(Faults()) - 1
    {
      hide CrashPoint, Failures, Took, Reaches, Validated, Verifies;
      ghost var p, k := plan, Committing(disk);
      ok := MaterializeGeneration(m, from, goal);
      if !ok {
        FailedTook(p, plan, plan, MATERIALIZING, MATERIALIZING + k - 1);
        FailedTook(p, plan, plan, MATERIALIZING, MATERIALIZING + k + 1);
        return;
      }
      VerifiesDependsOnNamed(old(disk), disk, m);
      RotatesAlike(old(disk), disk);
      ghost var q := plan;
      ok := CommitAndClear(m, from, goal);
      ThenReaches(p, q, MATERIALIZING, k - 1);
      ThenTook(p, q, plan, MATERIALIZING, k + 1, ok);
    }

    method CommitAndClear(m: Manifest, ghost from: nat, ghost goal: Goal) returns (ok: bool)
      requires Safe(from, goal) && disk.marker && disk.roots == Contents(Chosen(m))
      requires forall s | s in SIDECARS :: s !in disk.sidecars
      requires goal.after == Some(m) && disk.current != Holds(m)
      requires Verifies(disk, m) && Validated(m)
      modifies this
      ensures Safe(from, goal) && old(trail) <= trail
      ensures SlotsWithin(old(disk), disk, m) && disk.generations == old(disk).generations
      ensures ok ==> Settled(disk, Chosen(m)) && disk.current == Holds(m)
      ensures disk.sidecars == old(disk).sidecars && SidesFree(disk, goal)
      ensures disk.current == Holds(m) <==> Reaches(old(plan), Committing(old(disk)) - 1)
      ensures Took(old(plan), plan, Committing(old(disk)) + 1, ok)
      ensures Faults() == if ok then old(Faults()) else old(Faults()) - 1
    {
      hide CrashPoint, Failures, Took, Reaches, Verifies;
      ghost var before, p, k := disk, plan, Committing(disk);
      ok := CommitManifest(m, from, goal);
      if !ok {
        FailedTook(p, plan, plan, k, k + 1);
        return;
      }
      CommitKeepsTheRecoveryPoint(before, m, disk);
      ghost var q := plan;
      ok := ClearMarker(from, goal);
      ThenTook(p, q, plan, k, 1, ok);
    }

    /** The guarded part of `save_index`: refresh the statistics, stage, raise the marker
        again, mirror and commit. */
    method PublishStaged(
      staged: map<Artifact, Blob>, stats: Option<Blob>, token: nat, epoch: nat, ghost from: nat, ghost goal: Goal)
      returns (ok: bool)
      requires CodeIndex in staged
      requires goal.after == Some(NewManifest(token, epoch, staged))
      requires Safe(from, goal) && disk.marker && FreshToken(disk, token)
      modifies this
      ensures Safe(from, goal) && old(trail) <= trail
      ensures SlotsWithin(old(disk), disk, NewManifest(token, epoch, staged))
      ensures Keeps(old(disk), disk, {})
      ensures ok ==> Settled(disk, Chosen(NewManifest(token, epoch, staged)))
      ensures ok ==> disk.current == Holds(NewManifest(token, epoch, staged))
      ensures ok ==> disk.sidecars == old(disk).sidecars - (set s | s in SIDECARS)
      ensures SidesFree(disk, goal)
      ensures ok || disk.current == Holds(NewManifest(token, epoch, staged)) ==>
                Validated(NewManifest(token, epoch, staged))
      ensures Validated(NewManifest(token, epoch, staged)) ==>
                && Took(old(plan), plan, PromotionAt(old(disk), staged, stats) + 2, ok)
                && (disk.current == Holds(NewManifest(token, epoch, staged)) <==>
                      Reaches(old(plan), PromotionAt(old(disk), staged, stats)))
      ensures Faults() <= old(Faults())
      ensures !ok ==> Faults() < old(Faults()) || !Validated(NewManifest(token, epoch, staged))
    {
      hide CrashPoint, Failures, Took, Reaches, Verifies, Validated;
      ghost var p, d0, k := plan, disk, PromotionAt(disk, staged, stats);
      NewManifestIsNotCommitted(disk, token, epoch, staged);
      ok := RefreshStats(stats, from, goal);
      ghost var i, q := if stats.Some? then 1 else 0, plan;
      if !ok {
        FailedTook(p, q, q, i, k);
        FailedTook(p, q, q, i, k + 2);
        return;
      }
      ok := StageGeneration(staged, token, epoch, from, goal);
      if Validated(NewManifest(token, epoch, staged)) {
        ThenTook(p, q, plan, i, Staging(staged), ok);
        i, q := i + Staging(staged), plan;
        if !ok {
          FailedTook(p, q, q, i, k);
          FailedTook(p, q, q, i, k + 2);
        }
      }
      if !ok { return; }
      NewManifestVerifies(disk, token, epoch, staged);
      SameCommit(d0, disk);
      ok := MarkAndCommit(NewManifest(token, epoch, staged), from, goal);
      ThenReaches(p, q, i, k - i);
      ThenTook(p, q, plan, i, k + 2 - i, ok);
    }

    /** The marker is raised once more before the roots change. */
    method MarkAndCommit(m: Manifest, ghost from: nat, ghost goal: Goal) returns (ok: bool)
      requires Safe(from, goal) && disk.marker
      requires goal.after == Some(m) && disk.current != Holds(m)
      requires Verifies(disk, m) && Validated(m)
      modifies this
      ensures Safe(from, goal) && old(trail) <= trail
      ensures SlotsWithin(old(disk), disk, m) && disk.generations == old(disk).generations
      ensures ok ==> Settled(disk, Chosen(m)) && disk.current == Holds(m)
      ensures ok ==> disk.sidecars == old(disk).sidecars - (set s | s in SIDECARS)
      ensures SidesFree(disk, goal)
      ensures disk.current == Holds(m) <==> Reaches(old(plan), MATERIALIZING + Committing(old(disk)))
      ensures Took(old(plan), plan, MATERIALIZING + Committing(old(disk)) + 2, ok)
      ensures Faults() == if ok then old(Faults()) else old(Faults()) - 1
    {
      hide CrashPoint, Failures, Took, Reaches, Validated, Verifies;
      ghost var p, k := plan, Committing(disk);
      ok := WriteMarker(from, goal);
      if !ok {
        FailedTook(p, plan, plan, 1, MATERIALIZING + k);
        FailedTook(p, plan, plan, 1, MATERIALIZING + k + 2);
        return;
      }
      ghost var q := plan;
      RootsOnly(old(disk), disk);
      SameCommit(old(disk), disk);
      VerifiesDependsOnNamed(old(disk), disk, m);
      ok := MirrorAndCommit(m, from, goal);
      ThenReaches(p, q, 1, MATERIALIZING + k - 1);
      ThenTook(p, q, plan, 1, MATERIALIZING + k + 1, ok);
    }

    /** `_update_stats`: the statistics among the roots, when there are any to write. */
    method RefreshStats(stats: Option<Blob>, ghost from: nat, ghost goal: Goal) returns (ok: bool)
      requires Safe(from, goal) && disk.marker
      modifies this
      ensures Safe(from, goal) && old(trail) <= trail
      ensures disk == old(disk) || (stats.Some? && disk == old(disk).(roots := disk.roots[StatsJson := stats.value]))
      ensures ok && stats.Some? ==> StatsJson in disk.roots && disk.roots[StatsJson] == stats.value
      ensures Took(old(plan), plan, if stats.Some? then 1 else 0, ok)
      ensures Faults() == if ok then old(Faults()) else old(Faults()) - 1
    {
      ok := true;
      NoChange(plan);
      if stats.Some? {
        ok := Adjust(disk.(roots := disk.roots[StatsJson := stats.value]), from, goal);
      }
    }

    /** The `finally` part of a failed save: drop the staging directory, and the published
        one unless a readable manifest names it. */
    method DropUnreferenced(token: nat, ghost from: nat, ghost goal: Goal)
      requires Safe(from, goal) && Unnamed(disk, Staged(token))
      modifies this
      ensures Safe(from, goal) && old(trail) <= trail
      ensures disk == old(disk).(generations := disk.generations)
      ensures AgreeOn(old(disk), disk, SlotNames(disk.current) + SlotNames(disk.prior))
      ensures Keeps(old(disk), disk, {Staged(token), Published(token)})
      ensures ChoiceOf(disk) == ChoiceOf(old(disk))
      ensures Faults() <= old(Faults())
      ensures Faults() == old(Faults()) ==> Staged(token) !in disk.generations
      ensures Faults() == old(Faults()) && Unnamed(disk, Published(token)) ==> Published(token) !in disk.generations
    {
      var _ := RemoveGenerations({Staged(token)}, true, from, goal);
      if Unnamed(disk, Published(token)) {
        assert Published(token) !in Retained(disk);
        ghost var middle := disk;
        var _ := RemoveGenerations({Published(token)}, true, from, goal);
      }
    }

    /** The exception path of a save: roll back, then clean up. */
    method AbandonSave(token: nat, ghost from: nat, ghost goal: Goal)
      requires Safe(from, goal) && SidesFree(disk, goal) && Unnamed(disk, Staged(token))
      modifies this
      ensures Safe(from, goal) && old(trail) <= trail
      ensures SameSlots(old(disk), disk) && ChoiceOf(disk) == ChoiceOf(old(disk))
      ensures AgreeOn(old(disk), disk, SlotNames(disk.current) + SlotNames(disk.prior))
      ensures Keeps(old(disk), disk, {Staged(token), Published(token)})
      ensures Restorable(ChoiceOf(disk)) ==> Settled(disk, ChoiceOf(disk)) || Faults() < old(Faults())
      ensures Faults() <= old(Faults())
    {
      var restored := RollBack(from, goal);
      DropUnreferenced(token, from, goal);
    }

    /** The saving part of `save_index`, past its guards. */
    method PublishOrAbandon(
      staged: map<Artifact, Blob>, stats: Option<Blob>, token: nat, epoch: nat, ghost from: nat, ghost goal: Goal)
      returns (ok: bool)
      requires CodeIndex in staged
      requires goal.after == Some(NewManifest(token, epoch, staged))
      requires Safe(from, goal) && FreshToken(disk, token)
      modifies this
      ensures Safe(from, goal) && old(trail) <= trail
      ensures !ok ==> Keeps(old(disk), disk, {})
      ensures ok ==> Settled(disk, Chosen(NewManifest(token, epoch, staged)))
      ensures ok ==> disk.current == Holds(NewManifest(token, epoch, staged))
      ensures ok ==> disk.sidecars == old(disk).sidecars - (set s | s in SIDECARS)
      ensures ok && Faults() == old(Faults()) ==> disk.generations.Keys <= Retained(disk)
      ensures ok || disk.current == Holds(NewManifest(token, epoch, staged)) ==>
                Validated(NewManifest(token, epoch, staged))
      ensures Validated(NewManifest(token, epoch, staged)) ==>
                && (ok <==> Clear(old(plan), PromotionAt(old(disk), staged, stats) + 2))
                && (disk.current == Holds(NewManifest(token, epoch, staged)) <==>
                      Reaches(old(plan), PromotionAt(old(disk), staged, stats)))
      ensures !ok && disk.current == Holds(NewManifest(token, epoch, staged)) ==>
                Settled(disk, Chosen(NewManifest(token, epoch, staged))) || Faults() + 2 <= old(Faults())
      ensures Faults() <= old(Faults())
      ensures !ok && Restorable(ChoiceOf(disk)) ==> Settled(disk, ChoiceOf(disk)) || Faults() < old(Faults())
    {
      hide Clear, Reaches, Failures, CrashPoint, Validated, Verifies;
      ghost var p, i, k := plan, if disk.marker then 0 else 1, PromotionAt(disk, staged, stats);
      NewManifestIsNotCommitted(disk, token, epoch, staged);
      ok := MarkWorkingSetDirty(from, goal);
      ghost var q := plan;
      if !ok {
        FailedTook(p, q, q, i, k);
        FailedTook(p, q, q, i, k + 2);
        return;
      }
      RootsOnly(old(disk), disk);
      SameCommit(old(disk), disk);
      ok := PublishStaged(staged, stats, token, epoch, from, goal);
      if Validated(NewManifest(token, epoch, staged)) {
        ThenReaches(p, q, i, k - i);
        ThenTook(p, q, plan, i, k + 2 - i, ok);
      }
      if !ok {
        FreshAfterSave(old(disk), disk, token, epoch, staged);
        AbandonSave(token, from, goal);
        CommittedIsChosen(disk, goal);
        return;
      }
      PruneSaved(from, goal);
    }

    /** Pruning after a save: only the generations that the two manifests name stay. */
    method PruneSaved(ghost from: nat, ghost goal: Goal)
      requires Safe(from, goal) && SlotVerifies(disk, disk.current)
      modifies this
      ensures Safe(from, goal) && old(trail) <= trail
      ensures disk == old(disk).(generations := disk.generations) && ChoiceOf(disk) == ChoiceOf(old(disk))
      ensures Faults() <= old(Faults())
      ensures Faults() == old(Faults()) ==> disk.generations.Keys <= Retained(disk)
    {
      Prune(from, goal);
      if Faults() == old(Faults()) {
        assert Shrinks(old(disk), disk, Retained(old(disk)));
        PruningKeepsTheReading(old(disk), disk);
      }
    }

    /** `save_index`.  `staged` is None when no FAISS index is loaded. */
    method SaveIndex(
      staged: Option<map<Artifact, Blob>>, chunkCount: nat, stats: Option<Blob>, force: bool,
      token: nat, epoch: nat, ghost from: nat, ghost before: Choice)
      returns (outcome: SaveOutcome)
      requires staged.Some? ==> CodeIndex in staged.value
      requires FreshToken(disk, token)
      requires Safe(from, SaveGoal(before, staged, token, epoch))
      modifies this
      ensures Safe(from, SaveGoal(before, staged, token, epoch)) && old(trail) <= trail
      ensures outcome.SavePublished? ==>
                && staged.Some?
                && disk.current == Holds(NewManifest(token, epoch, staged.value))
                && Settled(disk, Chosen(NewManifest(token, epoch, staged.value)))
                && disk.sidecars == old(disk).sidecars - (set s | s in SIDECARS)
                && (Faults() == old(Faults()) ==> disk.generations.Keys <= Retained(disk))
      ensures outcome.SaveSkippedEmpty? ==> disk == old(disk) && staged.None?
      ensures outcome.SaveRefused? ==> ChoiceOf(disk) == before && (Restorable(before) ==> Settled(disk, before))
      ensures outcome.SaveFailed? && Restorable(ChoiceOf(disk)) ==>
                Settled(disk, ChoiceOf(disk)) || Faults() < old(Faults())
      ensures outcome.SaveRefused? ==> !force && TruncationGuard(old(disk), chunkCount)
      ensures outcome.SaveRefused? ==>
                5 <= old(disk).roots[ChunkIds].records && 2 * chunkCount < old(disk).roots[ChunkIds].records
      ensures !force && TruncationGuard(old(disk), chunkCount) ==> outcome.SaveRefused? || outcome.SaveFailed?
      ensures !outcome.SavePublished? ==> Keeps(old(disk), disk, {})
      ensures staged.Some? ==>
                (outcome.SavePublished? <==>
                   && (force || !TruncationGuard(old(disk), chunkCount))
                   && Sound(staged.value)
                   && Clear(old(plan), PromotionAt(old(disk), staged.value, stats) + 2))
      ensures staged.Some? ==>
                (disk.current == Holds(NewManifest(token, epoch, staged.value)) <==>
                   && (force || !TruncationGuard(old(disk), chunkCount))
                   && Sound(staged.value)
                   && Reaches(old(plan), PromotionAt(old(disk), staged.value, stats)))
      ensures staged.Some? && outcome.SaveFailed? && disk.current == Holds(NewManifest(token, epoch, staged.value)) ==>
                Settled(disk, Chosen(NewManifest(token, epoch, staged.value))) || Faults() + 2 <= old(Faults())
      ensures staged.Some? && disk.current == Holds(NewManifest(token, epoch, staged.value)) ==>
                Sound(staged.value)
      ensures outcome.SavePublished? && ChunkIds in disk.roots ==>
                disk.roots[ChunkIds].records == disk.roots[CodeIndex].records
      ensures outcome.SavePublished? && !force && ChunkIds in old(disk).roots && old(disk).roots[ChunkIds].opens ==>
                old(disk).roots[ChunkIds].records < 5 || old(disk).roots[ChunkIds].records <= 2 * chunkCount
      ensures Faults() <= old(Faults())
    {
      hide Clear, Reaches, Failures, PromotionAt;
      ghost var goal := SaveGoal(before, staged, token, epoch);
      if staged.Some? {
        NewManifestIsNotCommitted(disk, token, epoch, staged.value);
        NewManifestContents(token, epoch, staged.value);
        NewManifestValidates(token, epoch, staged.value);
      }
      if !force && TruncationGuard(disk, chunkCount) {
        if disk.marker || ReadWithFallback(disk).manifest.Some? {
          var ok := RollBack(from, goal);
          if !ok { return SaveFailed; }
        }
        return SaveRefused;
      }
      if staged.None? {
        return SaveSkippedEmpty;
      }
      var ok := PublishOrAbandon(staged.value, stats, token, epoch, from, goal);
      return if ok then SavePublished else SaveFailed;
    }

    /** A save that raises although its generation is committed: for every index and every
        generation that validates, an error right after the promotion does it. */
    static method FailAfterCommit(
      initial: Disk, staged: map<Artifact, Blob>, stats: Option<Blob>, token: nat, epoch: nat)
      returns (storage: IndexStorage, outcome: SaveOutcome)
      requires CodeIndex in staged && FreshToken(initial, token) && Sound(staged)
      requires Pending(initial, ChoiceOf(initial))
      ensures outcome.SaveFailed?
      ensures storage.disk.current == Holds(NewManifest(token, epoch, staged))
      ensures storage.disk.roots == staged && !storage.disk.marker
    {
      hide CrashPoint, Took, Validated;
      var k := PromotionAt(initial, staged, stats);
      var fates := FailingAt(k, LandsAndRaises);
      storage := new IndexStorage(initial, fates);
      ghost var before := ChoiceOf(initial);
      InitialCrashPoint(initial, before, Some(staged), token, epoch);
      outcome := storage.SaveIndex(Some(staged), 0, stats, true, token, epoch, 0, before);
      NewManifestContents(token, epoch, staged);
    }

    // -------------------------------------------------------------------------
    // Transactions
    // -------------------------------------------------------------------------

    /** `_repair_root_mirrors_from_verified_generation`: whatever happened to the root
        files, a writer starts from the selected generation. */
    method RepairRootMirrors(ghost from: nat, ghost goal: Goal) returns (ok: bool)
      requires Ready(from, goal) && !disk.marker
      requires goal == Goal(ChoiceOf(disk), None, None)
      modifies this
      ensures Ready(from, goal) && old(trail) <= trail
      ensures SameSlots(old(disk), disk) && ChoiceOf(disk) == ChoiceOf(old(disk))
      ensures ok && ChoiceOf(disk).Chosen? ==> Settled(disk, ChoiceOf(disk)) && Validated(ChoiceOf(disk).manifest)
      ensures ok && !ChoiceOf(disk).Chosen? ==> disk == old(disk) && trail == old(trail)
      ensures Faults() <= old(Faults())
      ensures !ok && Restorable(ChoiceOf(disk)) ==> Faults() < old(Faults())
    {
      hide Failures, Took, Validated, Verifies;
      var reading := ReadWithFallback(disk);
      if reading.manifest.None? {
        return true;
      }
      var m := reading.manifest.value;
      if !Validated(m) {
        return false;
      }
      if disk.roots == Contents(Chosen(m)) && forall s | s in SIDECARS :: s !in disk.sidecars {
        return true;
      }
      var next := disk.(marker := true);
      ReadingDependsOnNamed(disk, next);
      ok := Durably(next, from, goal);
      if !ok {
        ReadingDependsOnNamed(old(disk), disk);
        return;
      }
      ok := MaterializeGeneration(m, from, goal);
      if !ok { return; }
      ok := ClearMarker(from, goal);
      if !ok { return; }
      Prune(from, goal);
    }

    ghost predicate Recorded()
      reads this
    {
      trail != [] && trail[|trail| - 1] == disk
    }

    /** Every durable state since `from` can be recovered to the choice its manifests make. */
    ghost predicate AllPending(from: nat)
      reads this
    {
      forall i | from <= i < |trail| :: Pending(trail[i], ChoiceOf(trail[i]))
    }

    /** What construction and the start of a transaction share: finish an interrupted
        publication, then repair the roots. */
    method Begin() returns (ok: bool)
      requires Recorded()
      requires ChoiceOf(disk).NoneEver? && !disk.marker ==> disk.roots == map[]
      modifies this
      ensures Recorded() && old(trail) <= trail && AllPending(|old(trail)|)
      ensures SameSlots(old(disk), disk) && ChoiceOf(disk) == ChoiceOf(old(disk))
      ensures ok ==> !disk.marker
      ensures ok && Restorable(ChoiceOf(disk)) ==> Settled(disk, ChoiceOf(disk))
      ensures Faults() <= old(Faults())
      ensures !ok && Restorable(ChoiceOf(disk)) ==> Faults() < old(Faults())
      ensures forall m | Selects(old(disk), m) && Validated(m) ::
                if ok then disk.roots == Contents(Chosen(m)) else Faults() < old(Faults())
    {
      ReadingIsExact(disk);
      ghost var goal := Goal(ChoiceOf(disk), None, None);
      if disk.marker {
        ok := Recover(|trail| - 1, goal);
        if !ok { return; }
        ok := RepairRootMirrors(|old(trail)| - 1, goal);
      } else {
        ok := RepairRootMirrors(|trail|, goal);
      }
    }

    /** One action of the transaction's body. */
    method RunStep(step: BodyStep) returns (exit: StepExit)
      requires Recorded() && SoundStep(step) && Pending(disk, ChoiceOf(disk))
      modifies this
      ensures Recorded() && old(trail) <= trail && AllPending(|old(trail)| - 1)
      ensures exit.StepDone? && (step.Mutate? || step.BeginRebuild?) ==> disk.marker
      ensures exit.StepDone? && step.Mutate? ==> disk.roots == step.roots && disk.sidecars == step.sidecars
      ensures exit.StepDone? && step.BeginRebuild? ==> disk.roots == map[]
      ensures exit.StepDone? && disk.marker ==>
                step.Mutate? || step.BeginRebuild? || (old(disk).marker && !Publishes(step))
      ensures exit.StepDone? && old(disk).marker && !disk.marker ==> Publishes(step)
      ensures exit.StepDone? && Publishes(step) ==> Commits(step, ChoiceOf(disk))
      ensures ChoiceOf(disk) == ChoiceOf(old(disk)) || Commits(step, ChoiceOf(disk))
      ensures exit.StepRaised? <==> step.RaiseError?
      ensures exit.StepFailed? && Restorable(ChoiceOf(disk)) ==>
                Settled(disk, ChoiceOf(disk)) || Faults() < old(Faults())
      ensures Faults() <= old(Faults())
    {
      ghost var goal := Goal(ChoiceOf(disk), None, None);
      ghost var from := |trail| - 1;
      match step {
        case RaiseError =>
          return StepRaised;
        case Mutate(roots, sidecars) =>
          var ok := MarkWorkingSetDirty(from, goal);
          if !ok { return StepFailed; }
          ok := Adjust(disk.(roots := roots, sidecars := sidecars), from, goal);
          return if ok then StepDone else StepFailed;
        case BeginRebuild =>
          var ok := MarkWorkingSetDirty(from, goal);
          if !ok { return StepFailed; }
          ok := DiscardWorkingSet(from, goal);
          return if ok then StepDone else StepFailed;
        case Save(staged, chunkCount, stats, force, epoch) =>
          FreshTokenExists(disk);
          var token: nat :| FreshToken(disk, token);
          if staged.Some? {
            NewManifestIsNotCommitted(disk, token, epoch, staged.value);
            NewManifestContents(token, epoch, staged.value);
          }
          var outcome := SaveIndex(staged, chunkCount, stats, force, token, epoch, from, ChoiceOf(disk));
          return if outcome.SavePublished? || outcome.SaveSkippedEmpty? then StepDone else StepFailed;
      }
    }

    /** Leave the transaction: a marker still up is rolled back. */
    method Leave() returns (rolledBack: bool)
      requires Recorded() && Pending(disk, ChoiceOf(disk))
      modifies this
      ensures Recorded() && old(trail) <= trail && AllPending(|old(trail)| - 1)
      ensures ChoiceOf(disk) == ChoiceOf(old(disk)) && SameSlots(disk, old(disk))
      ensures !old(disk).marker ==> rolledBack && disk == old(disk)
      ensures rolledBack && Restorable(ChoiceOf(disk)) ==> Settled(disk, ChoiceOf(disk))
      ensures !rolledBack && Restorable(ChoiceOf(disk)) ==> Faults() < old(Faults())
      ensures Faults() <= old(Faults())
    {
      rolledBack := true;
      if disk.marker {
        rolledBack := RollBack(|trail| - 1, Goal(ChoiceOf(disk), None, None));
      }
    }

    /** `publication_transaction` around a body.  Whichever way it ends, the index is left
        at a verified generation with no marker, unless I/O errors hit the clean-up too;
        and even then every state on the way can be recovered. */
    method PublicationTransaction(body: seq<BodyStep>) returns (exit: TransactionExit)
      requires Recorded()
      requires ChoiceOf(disk).NoneEver? && !disk.marker ==> disk.roots == map[]
      requires forall i | 0 <= i < |body| :: SoundStep(body[i])
      modifies this
      ensures Recorded() && old(trail) <= trail && AllPending(|old(trail)|)
      ensures ChoiceOf(disk) == ChoiceOf(old(disk)) || exists i :: 0 <= i < |body| && Commits(body[i], ChoiceOf(disk))
      ensures exit.NotBegun? ==> ChoiceOf(disk) == ChoiceOf(old(disk))
      ensures exit.Completed? ==> !disk.marker && !LeavesUnsaved(body)
      ensures exit.ForgotToSave? ==> LeavesUnsaved(body)
      ensures exit.Completed? && LastSave(body).Some? ==> Commits(LastSave(body).value, ChoiceOf(disk))
      ensures exit.RaisedByBody? ==> exists i :: 0 <= i < |body| && body[i].RaiseError?
      ensures (exists i :: 0 <= i < |body| && body[i].RaiseError?) ==> !exit.Completed? && !exit.ForgotToSave?
      ensures Restorable(ChoiceOf(old(disk))) ==> Restorable(ChoiceOf(disk))
      ensures Restorable(ChoiceOf(old(disk))) ==>
                || Settled(disk, ChoiceOf(disk))
                || (exit.RaisedByStorage? && Faults() + 2 <= old(Faults()))
                || (!exit.Completed? && !exit.RaisedByStorage? && Faults() < old(Faults()))
      ensures Faults() <= old(Faults())
    {
      hide Failures, CrashPoint;
      ghost var base := |trail|;
      var ok := Begin();
      if !ok { return NotBegun; }
      for i := 0 to |body|
        invariant Recorded() && old(trail) <= trail && AllPending(base) && Pending(disk, ChoiceOf(disk))
        invariant ChoiceOf(disk) == ChoiceOf(old(disk)) || exists k :: 0 <= k < i && Commits(body[k], ChoiceOf(disk))
        invariant Restorable(ChoiceOf(old(disk))) ==> Restorable(ChoiceOf(disk))
        invariant LeavesUnsaved(body[..i]) <==> disk.marker
        invariant LastSave(body[..i]).Some? ==> Commits(LastSave(body[..i]).value, ChoiceOf(disk))
        invariant forall k | 0 <= k < i :: !body[k].RaiseError?
        invariant Faults() <= old(Faults())
      {
        assert body[..i + 1][..i] == body[..i] && body[..i + 1][i] == body[i];
        ghost var length := |trail|;
        var stepExit := RunStep(body[i]);
        assert AllPending(base) by {
          assert forall k | base <= k < |trail| :: k < length - 1 || Pending(trail[k], ChoiceOf(trail[k]));
        }
        if !stepExit.StepDone? {
          exit := if stepExit.StepRaised? then RaisedByBody else RaisedByStorage;
          var _ := Leave();
          return;
        }
      }
      assert body[..|body|] == body;
      exit := if disk.marker then ForgotToSave else Completed;
      var _ := Leave();
    }

    // -------------------------------------------------------------------------
    // Power cuts
    // -------------------------------------------------------------------------

    /** Recovery interrupted by any number of crashes and run again each time. */
    method RecoverUntilDone(ghost from: nat, ghost goal: Goal)
      requires Safe(from, goal) && Restorable(ChoiceOf(disk))
      modifies this
      ensures Safe(from, goal) && Settled(disk, ChoiceOf(disk))
      ensures SameSlots(disk, old(disk)) && ChoiceOf(disk) == ChoiceOf(old(disk))
      ensures if old(disk).marker then disk.sidecars == WithoutSidecars(old(disk), ChoiceOf(disk))
              else disk.sidecars == old(disk).sidecars
    {
      var done := false;
      while !done
        invariant Safe(from, goal) && SameSlots(disk, old(disk)) && ChoiceOf(disk) == ChoiceOf(old(disk))
        invariant disk.marker ==> old(disk).marker
        invariant disk.marker ==> WithoutSidecars(disk, ChoiceOf(disk)) == WithoutSidecars(old(disk), ChoiceOf(disk))
        invariant !disk.marker ==> disk.sidecars == if old(disk).marker then WithoutSidecars(old(disk), ChoiceOf(disk))
                                                    else old(disk).sidecars
        invariant done ==> Settled(disk, ChoiceOf(disk))
        decreases !done, Faults()
      {
        done := Recover(from, goal);
      }
    }

    /** A save cut off after any durable change, then recovered through any further
        crashes: the roots are wholly the new generation or wholly the old contents, the
        new one exactly when its manifest had replaced `current.json`. */
    method SaveThenPowerCut(
      staged: map<Artifact, Blob>, stats: Option<Blob>, token: nat, epoch: nat, later: seq<Fate>)
      requires CodeIndex in staged && FreshToken(disk, token)
      requires Recorded() && Restorable(ChoiceOf(disk)) && Settled(disk, ChoiceOf(disk))
      modifies this
      ensures !disk.marker
      ensures disk.current == Holds(NewManifest(token, epoch, staged)) ==>
                && disk.roots == staged && ChoiceOf(disk) == Chosen(NewManifest(token, epoch, staged))
                && SidesGone(disk, ChoiceOf(disk))
      ensures disk.current != Holds(NewManifest(token, epoch, staged)) ==>
                && disk.roots == old(disk).roots && ChoiceOf(disk) == ChoiceOf(old(disk))
                && (SidesGone(disk, ChoiceOf(disk)) || disk.sidecars == old(disk).sidecars)
                && forall m | Selects(old(disk), m) :: Selects(disk, m) && disk.roots == Contents(Chosen(m))
    {
      hide Failures, Took, Clear, Reaches, PromotionAt, CrashPoint, SidesGone, ChoiceOf, Restorable;
      NewManifestIsNotCommitted(disk, token, epoch, staged);
      NewManifestContents(token, epoch, staged);
      ghost var d0, from, m := disk, |trail| - 1, NewManifest(token, epoch, staged);
      ghost var goal := Goal(ChoiceOf(disk), Some(m), Some(disk.sidecars));
      var start := |trail| - 1;
      BeforeTheCut(disk, m, goal);
      var ok := PublishOrAbandon(staged, stats, token, epoch, from, goal);
      var cut :| start <= cut < |trail|;
      disk, trail, plan := trail[cut], trail[..cut + 1], later;
      ghost var c := disk;
      RestorableAtTheCut(c, goal);
      RecoverUntilDone(from, goal);
      AfterTheCut(d0, c, disk, m, goal);
      ReadingIsExact(d0);
      ReadingIsExact(disk);
    }

    // -------------------------------------------------------------------------
    // Clearing
    // -------------------------------------------------------------------------

    method RemoveManifestFiles(order: seq<SlotFile>, ghost base: nat, ghost d0: Disk) returns (ok: bool)
      requires Recorded() && base < |trail| && disk.marker
      requires disk.generations == d0.generations && SameSlots(d0, disk)
      requires forall k | base <= k < |trail| :: ClearPoint(d0, trail[k])
      modifies this
      ensures Recorded() && old(trail) <= trail
      ensures forall k | base <= k < |trail| :: ClearPoint(d0, trail[k])
      ensures ok ==> disk == WithoutSlots(old(disk), order)
      ensures Faults() <= old(Faults()) && (!ok ==> Faults() < old(Faults()))
    {
      ok := true;
      for i := 0 to |order|
        invariant ok && Recorded() && old(trail) <= trail && Faults() == old(Faults())
        invariant forall k | base <= k < |trail| :: ClearPoint(d0, trail[k])
        invariant disk == WithoutSlots(old(disk), order[..i])
      {
        assert order[..i + 1][..i] == order[..i] && order[..i + 1][i] == order[i];
        var next := WithoutSlot(disk, order[i]);
        SlotsAfterRemoval(old(disk), order[..i + 1]);
        PartialClear(d0, old(disk), next);
        ok := Durably(next, |trail|, Goal(ChoiceOf(next), None, None));
        if !ok { return; }
      }
      assert order[..|order|] == order;
    }

    /** `clear_index`: marker, roots, manifest directory in whatever order the file system
        lists it, generations, marker. */
    method ClearIndex(order: seq<SlotFile>) returns (ok: bool)
      requires Recorded()
      requires CurrentFile in order && PriorFile in order && CandidateFile in order
      modifies this
      ensures Recorded() && old(trail) <= trail
      ensures forall i | |old(trail)| <= i < |trail| :: ClearPoint(old(disk), trail[i])
      ensures ok ==> disk == Disk(false, map[], disk.sidecars, map[], Missing, Missing, Missing)
      ensures ok ==> disk.sidecars == set s | s in old(disk).sidecars && s.suffix.Journal?
      ensures Faults() <= old(Faults()) && (!ok ==> Faults() < old(Faults()))
    {
      hide Failures, Took;
      ghost var base, d0 := |trail|, disk;
      var next := disk.(marker := true);
      ReadingDependsOnNamed(disk, next);
      ok := Durably(next, base, Goal(ChoiceOf(d0), None, None));
      if !ok { return; }
      ok := DiscardWorkingSet(base, Goal(ChoiceOf(d0), None, None));
      if !ok { return; }
      SlotsAfterRemoval(disk, order);
      ok := RemoveManifestFiles(order, base, d0);
      if !ok { return; }
      ok := RemoveGenerations(disk.generations.Keys, false, |trail| - 1, Goal(NoneEver, None, None));
      if !ok { return; }
      ok := ClearMarker(|trail| - 1, Goal(NoneEver, None, None));
    }
  }
}
