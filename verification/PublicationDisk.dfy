/** The durable state of one index directory, and what a reader or a recovering
    process makes of it.  Files are values: a `Blob` stands for the bytes of a file,
    so that two blobs are equal exactly when their SHA-256 digests are. */
module PublicationDisk {
  import opened Wrappers

  datatype Artifact = CodeIndex | ChunkIds | MetadataDb | FtsDb | StatsJson | FloatStore

  datatype Suffix = Wal | Shm | Journal

  /** A SQLite side file such as `metadata.db-wal`. */
  datatype Sidecar = Sidecar(database: Artifact, suffix: Suffix)

  /** File contents, with the two facts that validation reads off them. */
  datatype Blob = Blob(digest: nat, records: nat, opens: bool)

  datatype Generation = Staged(token: nat) | Published(token: nat)

  datatype Entry = Entry(generation: Generation, content: Blob)

  datatype Manifest = Manifest(epoch: nat, entries: map<Artifact, Entry>, expected: Option<nat>)

  /** One manifest file: absent, present but not JSON, or readable. */
  datatype Slot = Missing | Unreadable | Holds(manifest: Manifest)

  datatype Disk = Disk(
    marker: bool,
    roots: map<Artifact, Blob>,
    sidecars: set<Sidecar>,
    generations: map<Generation, map<Artifact, Blob>>,
    current: Slot,
    prior: Slot,
    candidate: Slot)

  datatype Freshness = Fresh | StaleUsingPrior | Absent | Corrupt

  datatype Reading = Reading(manifest: Option<Manifest>, freshness: Freshness)

  const ARTIFACTS: seq<Artifact> := [CodeIndex, ChunkIds, MetadataDb, FtsDb, StatsJson, FloatStore]

  const SIDECARS: seq<Sidecar> := [
    Sidecar(MetadataDb, Wal), Sidecar(MetadataDb, Shm), Sidecar(MetadataDb, Journal),
    Sidecar(FtsDb, Wal), Sidecar(FtsDb, Shm), Sidecar(FtsDb, Journal)]

  // ---------------------------------------------------------------------------
  // Reading a manifest
  // ---------------------------------------------------------------------------

  function Named(m: Manifest): set<Generation> {
    set a | a in m.entries :: m.entries[a].generation
  }

  predicate EntryVerifies(d: Disk, a: Artifact, e: Entry) {
    e.generation in d.generations
    && a in d.generations[e.generation]
    && d.generations[e.generation][a] == e.content
  }

  predicate Verifies(d: Disk, m: Manifest) {
    m.entries != map[] && forall a | a in m.entries :: EntryVerifies(d, a, m.entries[a])
  }

  predicate SlotVerifies(d: Disk, slot: Slot) {
    slot.Holds? && Verifies(d, slot.manifest)
  }

  function FallBackToPrior(d: Disk): Reading {
    if SlotVerifies(d, d.prior) then Reading(Some(d.prior.manifest), StaleUsingPrior)
    else Reading(None, Corrupt)
  }

  function ReadWithFallback(d: Disk): Reading {
    match d.current
    case Missing => if d.prior.Missing? then Reading(None, Absent) else FallBackToPrior(d)
    case Unreadable => FallBackToPrior(d)
    case Holds(m) => if Verifies(d, m) then Reading(Some(m), Fresh) else FallBackToPrior(d)
  }

  /** The checks beyond digests that a generation passes before it is published or
      restored.  A verified manifest fixes the contents, so they depend on it alone. */
  predicate Validated(m: Manifest) {
    && (if CodeIndex in m.entries && ChunkIds in m.entries then
          var index, ids := m.entries[CodeIndex].content, m.entries[ChunkIds].content;
          && index.opens && ids.opens && index.records == ids.records
          && (FloatStore in m.entries ==>
                m.entries[FloatStore].content.opens && m.entries[FloatStore].content.records == ids.records)
          && (m.expected.Some? ==> m.expected.value == index.records)
        else
          m.expected == None || m.expected == Some(0))
    && (MetadataDb in m.entries ==> m.entries[MetadataDb].content.opens)
    && (FtsDb in m.entries ==> m.entries[FtsDb].content.opens)
  }

  // ---------------------------------------------------------------------------
  // The publication point
  // ---------------------------------------------------------------------------

  /** What the manifests on disk commit to: nothing was ever committed, one chosen
      manifest, or manifests none of which verifies. */
  datatype Choice = NoneEver | Chosen(manifest: Manifest) | Broken

  function ChoiceOf(d: Disk): Choice {
    var reading := ReadWithFallback(d);
    if reading.manifest.Some? then Chosen(reading.manifest.value)
    else if reading.freshness.Absent? then NoneEver
    else Broken
  }

  predicate Restorable(c: Choice) {
    c.NoneEver? || (c.Chosen? && Validated(c.manifest))
  }

  /** The root files a choice stands for. */
  function Contents(c: Choice): map<Artifact, Blob> {
    if c.Chosen? then map a | a in c.manifest.entries :: c.manifest.entries[a].content else map[]
  }

  /** The manifests select `c`, and unless the marker is up the root files are exactly
      what `c` stands for. */
  predicate Pending(d: Disk, c: Choice) {
    ChoiceOf(d) == c && (d.marker || !Restorable(c) || d.roots == Contents(c))
  }

  predicate Settled(d: Disk, c: Choice) {
    ChoiceOf(d) == c && !d.marker && d.roots == Contents(c)
  }

  /** One publication attempt: what was selected before it, the manifest it commits (None while only recovery or
      rollback is under way), and, where side files are followed, those there at the start. */
  datatype Goal = Goal(before: Choice, after: Option<Manifest>, sides: Option<set<Sidecar>>)

  /** The new manifest exactly when it has replaced `current.json`. */
  function Expected(d: Disk, goal: Goal): Choice {
    if goal.after.Some? && d.current == Holds(goal.after.value) then Chosen(goal.after.value) else goal.before
  }

  /** No side file is left that SQLite could replay over what `c` stands for; when nothing was ever committed, only
      rollback journals may be. */
  ghost predicate SidesGone(d: Disk, c: Choice) {
    if c.Chosen? then forall s | s in SIDECARS :: s !in d.sidecars
    else forall s | s in d.sidecars :: s.suffix.Journal?
  }

  /** Without the marker the side files are gone, or nothing has happened to them yet. */
  ghost predicate SidesOk(d: Disk, goal: Goal) {
    goal.sides.Some? ==>
      || d.marker
      || SidesGone(d, Expected(d, goal))
      || (d.sidecars == goal.sides.value && Expected(d, goal) == goal.before)
  }

  /** The manifests select what the goal expects, the roots match unless the marker is
      up, so do the side files, and a new manifest is never committed unvalidated. */
  ghost predicate CrashPoint(d: Disk, goal: Goal) {
    && Pending(d, Expected(d, goal))
    && (Expected(d, goal) == goal.before || Restorable(Expected(d, goal)))
    && SidesOk(d, goal)
  }

  /** The manifest that a reader should get, by verification alone: a current one that verifies, or else a
      prior one that does. */
  predicate Selects(d: Disk, m: Manifest) {
    if SlotVerifies(d, d.current) then d.current == Holds(m)
    else SlotVerifies(d, d.prior) && d.prior == Holds(m)
  }

  /** Reading is exact: it finds that manifest whenever either slot verifies, however bad the other one is, it says
      which of the two it is, and otherwise it tells an index that was never published from a broken one. */
  lemma ReadingIsExact(d: Disk)
    ensures ReadWithFallback(d).manifest.Some? <==> AnyVerifies(d)
    ensures forall m :: Selects(d, m) <==> ReadWithFallback(d).manifest == Some(m)
    ensures forall m :: Selects(d, m) <==> ChoiceOf(d) == Chosen(m)
    ensures forall m :: Selects(d, m) ==> m.entries != map[]
    ensures ReadWithFallback(d).freshness.Fresh? <==> SlotVerifies(d, d.current)
    ensures ReadWithFallback(d).freshness.StaleUsingPrior? <==>
            !SlotVerifies(d, d.current) && SlotVerifies(d, d.prior)
    ensures ReadWithFallback(d).freshness.Absent? <==> d.current.Missing? && d.prior.Missing?
    ensures ChoiceOf(d).NoneEver? <==> d.current.Missing? && d.prior.Missing?
  {
  }

  /** The files that the manifest names, as they are in the generation directories. */
  function FilesOf(d: Disk, m: Manifest): map<Artifact, Blob> {
    map a | a in m.entries && m.entries[a].generation in d.generations
            && a in d.generations[m.entries[a].generation] :: d.generations[m.entries[a].generation][a]
  }

  /** A manifest that verifies speaks of the bytes that are there. */
  lemma VerifiedFiles(d: Disk, m: Manifest)
    requires Verifies(d, m)
    ensures FilesOf(d, m) == Contents(Chosen(m))
  {
    forall a | a in m.entries ensures a in FilesOf(d, m) && FilesOf(d, m)[a] == m.entries[a].content {
      assert EntryVerifies(d, a, m.entries[a]);
    }
  }

  // ---------------------------------------------------------------------------
  // Which changes leave the reading alone
  // ---------------------------------------------------------------------------

  function SlotNames(slot: Slot): set<Generation> {
    if slot.Holds? then Named(slot.manifest) else {}
  }

  predicate SameSlots(d: Disk, d': Disk) {
    d'.current == d.current && d'.prior == d.prior
  }

  ghost predicate AgreeOn(d: Disk, d': Disk, gs: set<Generation>) {
    forall g | g in gs ::
      (g in d.generations <==> g in d'.generations)
      && (g in d.generations ==> d.generations[g] == d'.generations[g])
  }

  lemma VerifiesDependsOnNamed(d: Disk, d': Disk, m: Manifest)
    requires AgreeOn(d, d', Named(m))
    ensures Verifies(d, m) == Verifies(d', m)
  {
    forall a | a in m.entries
      ensures EntryVerifies(d, a, m.entries[a]) == EntryVerifies(d', a, m.entries[a])
    {
      assert m.entries[a].generation in Named(m);
    }
  }

  lemma ReadingDependsOnNamed(d: Disk, d': Disk)
    requires SameSlots(d, d')
    requires AgreeOn(d, d', SlotNames(d.current) + SlotNames(d.prior))
    ensures ReadWithFallback(d') == ReadWithFallback(d)
  {
    if d.current.Holds? { VerifiesDependsOnNamed(d, d', d.current.manifest); }
    if d.prior.Holds? { VerifiesDependsOnNamed(d, d', d.prior.manifest); }
  }

  // ---------------------------------------------------------------------------
  // Pruning
  // ---------------------------------------------------------------------------

  /** The generations named by a current or prior manifest that verifies. */
  function Retained(d: Disk): set<Generation> {
    (if SlotVerifies(d, d.current) then SlotNames(d.current) else {})
    + (if SlotVerifies(d, d.prior) then SlotNames(d.prior) else {})
  }

  predicate AnyVerifies(d: Disk) {
    SlotVerifies(d, d.current) || SlotVerifies(d, d.prior)
  }

  /** Every file of `d'` is a file of `d`, and the generations in `keep` are untouched. */
  ghost predicate Shrinks(d: Disk, d': Disk, keep: set<Generation>) {
    && SameSlots(d, d')
    && AgreeOn(d, d', keep)
    && forall g | g in d'.generations :: g in d.generations && d'.generations[g].Items <= d.generations[g].Items
  }

  /** Deleting files never makes a manifest verify, and never breaks one whose
      generations are kept. */
  lemma ShrinkingAndVerification(d: Disk, d': Disk, keep: set<Generation>, m: Manifest)
    requires Shrinks(d, d', keep)
    ensures Verifies(d', m) ==> Verifies(d, m)
    ensures Verifies(d, m) && Named(m) <= keep ==> Verifies(d', m)
  {
    if Verifies(d', m) {
      forall a | a in m.entries
        ensures EntryVerifies(d, a, m.entries[a])
      {
        var e := m.entries[a];
        assert EntryVerifies(d', a, e);
        assert (a, e.content) in d'.generations[e.generation].Items;
        assert (a, e.content) in d.generations[e.generation].Items;
      }
    }
    if Named(m) <= keep {
      assert AgreeOn(d, d', Named(m));
      VerifiesDependsOnNamed(d, d', m);
    }
  }

  /** Pruning never changes the manifest a reader gets, nor its freshness, nor the set of
      generations that later pruning must keep. */
  lemma PruningKeepsTheReading(d: Disk, d': Disk)
    requires Shrinks(d, d', Retained(d))
    ensures ReadWithFallback(d') == ReadWithFallback(d)
    ensures Retained(d') == Retained(d)
    ensures AnyVerifies(d') == AnyVerifies(d)
    ensures SlotVerifies(d', d'.current) == SlotVerifies(d, d.current)
    ensures SlotVerifies(d', d'.prior) == SlotVerifies(d, d.prior)
  {
    if d.current.Holds? { ShrinkingAndVerification(d, d', Retained(d), d.current.manifest); }
    if d.prior.Holds? { ShrinkingAndVerification(d, d', Retained(d), d.prior.manifest); }
  }

  // ---------------------------------------------------------------------------
  // Committing
  // ---------------------------------------------------------------------------

  /** Rotation happens only for a current manifest that still verifies. */
  function Rotated(d: Disk): Disk {
    if SlotVerifies(d, d.current) then d.(prior := d.current, current := Missing) else d
  }

  function Promoted(d: Disk): Disk {
    d.(current := d.candidate, candidate := Missing)
  }

  /** A disk state a reader can meet while `commit_manifest` runs on `d`. */
  ghost predicate CommitCrash(d: Disk, m: Manifest, d': Disk) {
    || d' == d
    || d' == d.(candidate := Unreadable)
    || d' == d.(candidate := Holds(m))
    || d' == Rotated(d.(candidate := Holds(m)))
    || d' == Promoted(Rotated(d.(candidate := Holds(m))))
  }

  lemma RotationKeepsTheChoice(d: Disk)
    ensures ReadWithFallback(Rotated(d)).manifest == ReadWithFallback(d).manifest
    ensures ChoiceOf(Rotated(d)) == ChoiceOf(d)
  {
    if SlotVerifies(d, d.current) {
      VerifiesDependsOnNamed(d, Rotated(d), d.current.manifest);
    }
  }

  lemma SelectedManifestVerifies(d: Disk)
    ensures ReadWithFallback(d).manifest.Some? ==> Verifies(d, ReadWithFallback(d).manifest.value)
  {
  }

  /** Committing never loses the recovery point: at every crash point a reader gets a
      verified manifest, the one selected before or the new one, and the new one exactly
      once it has been promoted. */
  lemma CommitKeepsTheRecoveryPoint(d: Disk, m: Manifest, d': Disk)
    requires Verifies(d, m)
    requires CommitCrash(d, m, d')
    ensures d' == Promoted(Rotated(d.(candidate := Holds(m)))) ==> ReadWithFallback(d') == Reading(Some(m), Fresh)
    ensures d' != Promoted(Rotated(d.(candidate := Holds(m)))) ==>
              ReadWithFallback(d').manifest == ReadWithFallback(d).manifest && ChoiceOf(d') == ChoiceOf(d)
    ensures ReadWithFallback(d').manifest.Some? ==> Verifies(d', ReadWithFallback(d').manifest.value)
    ensures AnyVerifies(d) ==> AnyVerifies(d')
    ensures d' == Promoted(Rotated(d.(candidate := Holds(m)))) ==> Selects(d', m)
    ensures d' != Promoted(Rotated(d.(candidate := Holds(m)))) ==>
              forall kept :: Selects(d', kept) <==> Selects(d, kept)
  {
    ReadingIsExact(d);
    ReadingIsExact(d');
    var written := d.(candidate := Holds(m));
    if d' == Promoted(Rotated(written)) {
      VerifiesDependsOnNamed(d, d', m);
    } else if d' == Rotated(written) {
      ReadingDependsOnNamed(d, written);
      RotationKeepsTheChoice(written);
    } else {
      ReadingDependsOnNamed(d, d');
    }
    SelectedManifestVerifies(d');
  }

  // ---------------------------------------------------------------------------
  // Recovery as a function
  // ---------------------------------------------------------------------------

  function WithoutSidecars(d: Disk, c: Choice): set<Sidecar> {
    if c.Chosen? then d.sidecars - (set s | s in SIDECARS)
    else set s | s in d.sidecars && s.suffix.Journal?
  }

  function PrunedGenerations(d: Disk): map<Generation, map<Artifact, Blob>> {
    if AnyVerifies(d) then map g | g in d.generations && g in Retained(d) :: d.generations[g] else d.generations
  }

  /** The disk after an undisturbed recovery: unchanged without a marker, otherwise the
      selected generation mirrored at the root and nothing else.  When nothing was ever
      committed the rollback journals stay behind. */
  function Recovered(d: Disk): Disk {
    var c := ChoiceOf(d);
    if !d.marker || !Restorable(c) then d
    else d.(marker := false,
            roots := Contents(c),
            sidecars := WithoutSidecars(d, c),
            generations := if c.Chosen? then PrunedGenerations(d) else map[])
  }

  lemma RecoveryKeepsTheChoice(d: Disk)
    ensures ChoiceOf(Recovered(d)) == ChoiceOf(d)
    ensures ReadWithFallback(Recovered(d)) == ReadWithFallback(d)
  {
    var c := ChoiceOf(d);
    if d.marker && c.Chosen? && Restorable(c) {
      assert Shrinks(d, Recovered(d), Retained(d));
      PruningKeepsTheReading(d, Recovered(d));
    }
  }

  /** What recovery mirrors is consistent: as many ids as index records and stored vectors, as many as the manifest
      says, and databases that open. */
  lemma RecoveredIsConsistent(d: Disk)
    requires d.marker && ChoiceOf(d).Chosen? && Recovered(d) != d
    ensures var r, expected := Recovered(d).roots, ChoiceOf(d).manifest.expected;
            && (CodeIndex in r && ChunkIds in r ==>
                  && r[CodeIndex].records == r[ChunkIds].records
                  && (FloatStore in r ==> r[FloatStore].records == r[ChunkIds].records)
                  && (expected.Some? ==> r[CodeIndex].records == expected.value))
            && (CodeIndex !in r || ChunkIds !in r ==> expected.None? || expected.value == 0)
            && forall a | a in r && a in {MetadataDb, FtsDb} :: r[a].opens
  {
  }

  /** From any crash point recovery settles on one generation, the new one exactly when
      it had been promoted, and recovering again changes nothing. */
  lemma RecoveryIsAllOrNothing(d: Disk, goal: Goal)
    requires CrashPoint(d, goal)
    requires Restorable(goal.before)
    ensures Settled(Recovered(d), Expected(d, goal))
    ensures Recovered(d).roots ==
            Contents(if goal.after.Some? && d.current == Holds(goal.after.value) then Chosen(goal.after.value)
                     else goal.before)
    ensures Recovered(Recovered(d)) == Recovered(d)
  {
    RecoveryKeepsTheChoice(d);
  }

  /** After a recovery no side file is left beside a database exactly when a generation
      was selected or no rollback journal was there. */
  lemma SidecarsAfterRecovery(d: Disk)
    requires d.marker && Restorable(ChoiceOf(d))
    requires forall s | s in d.sidecars :: s.database in {MetadataDb, FtsDb}
    ensures Recovered(d).sidecars == {} <==> (ChoiceOf(d).Chosen? || forall s | s in d.sidecars :: !s.suffix.Journal?)
  {
    assert SIDECARS[0] == Sidecar(MetadataDb, Wal) && SIDECARS[1] == Sidecar(MetadataDb, Shm)
        && SIDECARS[2] == Sidecar(MetadataDb, Journal) && SIDECARS[3] == Sidecar(FtsDb, Wal)
        && SIDECARS[4] == Sidecar(FtsDb, Shm) && SIDECARS[5] == Sidecar(FtsDb, Journal);
    forall s | s in d.sidecars ensures s in SIDECARS {
      match s.suffix
      case Wal => assert s == Sidecar(s.database, Wal);
      case Shm => assert s == Sidecar(s.database, Shm);
      case Journal => assert s == Sidecar(s.database, Journal);
    }
    assert forall s | s in d.sidecars && s.suffix.Journal? :: !ChoiceOf(d).Chosen? ==> s in Recovered(d).sidecars;
  }

  // ---------------------------------------------------------------------------
  // Clearing
  // ---------------------------------------------------------------------------

  datatype SlotFile = CurrentFile | PriorFile | CandidateFile

  function WithoutSlot(d: Disk, file: SlotFile): Disk {
    match file
    case CurrentFile => d.(current := Missing)
    case PriorFile => d.(prior := Missing)
    case CandidateFile => d.(candidate := Missing)
  }

  function WithoutSlots(d: Disk, files: seq<SlotFile>): Disk {
    if files == [] then d else WithoutSlot(WithoutSlots(d, files[..|files| - 1]), files[|files| - 1])
  }

  lemma SlotsAfterRemoval(d: Disk, files: seq<SlotFile>)
    ensures WithoutSlots(d, files) == d.(
              current := if CurrentFile in files then Missing else d.current,
              prior := if PriorFile in files then Missing else d.prior,
              candidate := if CandidateFile in files then Missing else d.candidate)
  {
    if files != [] {
      var less := files[..|files| - 1];
      assert files == less + [files[|files| - 1]];
      SlotsAfterRemoval(d, less);
    }
  }

  /** What a crash inside `clear_index` can leave: recoverable, and committed to the old
      choice, to nothing, or to what one of the two manifests says alone. */
  ghost predicate ClearPoint(d0: Disk, d: Disk) {
    && Pending(d, ChoiceOf(d))
    && (ChoiceOf(d) == ChoiceOf(d0) || ChoiceOf(d) == NoneEver
        || ChoiceOf(d) == ChoiceOf(d0.(current := Missing))
        || ChoiceOf(d) == ChoiceOf(d0.(prior := Missing)))
  }

  /** The choice once `current.json` alone is gone, and once `prior.json` alone is gone. */
  lemma ChoicesDuringClear(d: Disk)
    requires !ChoiceOf(d).Broken?
    ensures ChoiceOf(d.(current := Missing)) ==
            if d.prior.Missing? then NoneEver
            else if SlotVerifies(d, d.prior) then Chosen(d.prior.manifest) else Broken
    ensures ChoiceOf(d.(prior := Missing)) ==
            if d.current.Missing? then NoneEver
            else if SlotVerifies(d, d.current) then Chosen(d.current.manifest) else Broken
  {
    if d.prior.Holds? { VerifiesDependsOnNamed(d, d.(current := Missing), d.prior.manifest); }
    if d.current.Holds? { VerifiesDependsOnNamed(d, d.(prior := Missing), d.current.manifest); }
  }

  /** A manifest file that recovery could settle on, were it the only one left. */
  predicate Usable(d: Disk, slot: Slot) {
    slot.Missing? || (SlotVerifies(d, slot) && Validated(slot.manifest))
  }

  lemma ClearPointWithoutSlot(d: Disk, file: SlotFile)
    requires !ChoiceOf(d).Broken? && !file.CandidateFile?
    ensures ClearPoint(d, WithoutSlot(d, file).(marker := true))
    ensures ChoiceOf(WithoutSlot(d, file).(marker := true)) == ChoiceOf(WithoutSlot(d, file))
  {
    ReadingDependsOnNamed(WithoutSlot(d, file), WithoutSlot(d, file).(marker := true));
  }

  /** No cut during a clear can block recovery exactly when each manifest present both verifies and validates; none
      can bring back anything but the old contents or nothing exactly when a prior manifest that verifies stands for
      one of these. */
  lemma WhenClearIsSafe(d: Disk)
    requires Restorable(ChoiceOf(d))
    ensures (forall cut | ClearPoint(d, cut) :: Restorable(ChoiceOf(cut))) <==>
            Usable(d, d.current) && Usable(d, d.prior)
    ensures (forall cut | ClearPoint(d, cut) :: Contents(ChoiceOf(cut)) in {Contents(ChoiceOf(d)), map[]}) <==>
            (SlotVerifies(d, d.prior) ==> Contents(Chosen(d.prior.manifest)) in {Contents(ChoiceOf(d)), map[]})
  {
    ChoicesDuringClear(d);
    ClearPointWithoutSlot(d, CurrentFile);
    ClearPointWithoutSlot(d, PriorFile);
  }

  /** The block is real, too: on a settled disk whose manifests both verify, the prior one names a database that does
      not open; once `current.json` is gone recovery refuses and leaves everything as it is. */
  lemma ClearCanBlock() returns (d: Disk)
    ensures Restorable(ChoiceOf(d)) && Settled(d, ChoiceOf(d))
    ensures SlotVerifies(d, d.current) && SlotVerifies(d, d.prior)
    ensures ClearPoint(d, d.(marker := true, current := Missing))
    ensures Recovered(d.(marker := true, current := Missing)) == d.(marker := true, current := Missing)
  {
    var older, newer := map[MetadataDb := Blob(1, 0, false)], map[MetadataDb := Blob(2, 0, true)];
    d := TwoEpochs(older, newer, MetadataDb);
  }

  lemma TwoEpochs(older: map<Artifact, Blob>, newer: map<Artifact, Blob>, a: Artifact) returns (d: Disk)
    requires older.Keys == newer.Keys == {a} && a !in {CodeIndex, ChunkIds}
    requires newer[a].opens
    ensures Restorable(ChoiceOf(d)) && Settled(d, ChoiceOf(d)) && d.roots == newer
    ensures SlotVerifies(d, d.current) && SlotVerifies(d, d.prior)
    ensures Validated(d.prior.manifest) <==> older[a].opens || a !in {MetadataDb, FtsDb}
    ensures ClearPoint(d, d.(marker := true, current := Missing))
    ensures ChoiceOf(d.(marker := true, current := Missing)) == Chosen(d.prior.manifest)
    ensures Contents(Chosen(d.prior.manifest)) == older
  {
    var m1 := Manifest(1, map[a := Entry(Published(1), older[a])], None);
    var m2 := Manifest(2, map[a := Entry(Published(2), newer[a])], None);
    d := Disk(false, newer, {}, map[Published(1) := older, Published(2) := newer], Holds(m2), Holds(m1), Missing);
    assert a in m1.entries && a in m2.entries;
    assert EntryVerifies(d, a, m1.entries[a]) && EntryVerifies(d, a, m2.entries[a]);
    assert Contents(Chosen(m2)) == newer && Contents(Chosen(m1)) == older;
    ChoicesDuringClear(d);
    ClearPointWithoutSlot(d, CurrentFile);
  }

  /** The revert is real: with two good epochs committed, losing `current.json` first
      brings the older one back. */
  lemma ClearCanRevert() returns (d: Disk)
    ensures Restorable(ChoiceOf(d)) && Settled(d, ChoiceOf(d))
    ensures ClearPoint(d, d.(marker := true, current := Missing))
    ensures Recovered(d.(marker := true, current := Missing)).roots !in {d.roots, map[]}
  {
    var older, newer := map[StatsJson := Blob(1, 0, true)], map[StatsJson := Blob(2, 0, true)];
    d := TwoEpochs(older, newer, StatsJson);
    assert older[StatsJson] != newer[StatsJson];
  }
}
