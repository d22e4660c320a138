/** Whole runs of the incremental indexer: which kind of run is taken, what it commits, in
    which order index and snapshot become durable, and where sequences of runs end. */
module IncrementalRuns {
  import opened Wrappers
  import opened FilePaths
  import opened Merkle
  import opened IndexStore
  import opened Incremental
  import opened Faults

  /** The snapshot file: absent, cut off while being written, or a saved tree. */
  datatype SnapshotFile = NoSnapshot | Torn | Saved(tree: Tree)

  /** What survives a stop: the published index, the snapshot, and whether the snapshot's
      metadata file declares an empty corpus. */
  datatype Durable = Durable(committed: Store, snapshot: SnapshotFile, declaresEmpty: bool)

  /** One call: the tree it finds, the order in which the walk lists the files, and
      whether a full run was asked for. */
  datatype Call = Call(tree: Tree, order: seq<string>, forceFull: bool)

  /** The walk lists only files of the tree. */
  predicate Listed(call: Call) {
    forall path | path in call.order :: path in call.tree
  }

  ghost predicate SoundCall(call: Call) {
    PlainTree(call.tree) && Lists(call.order, call.tree)
  }

  /** An unreadable snapshot counts as knowing no file. */
  function KnownTree(f: SnapshotFile): Tree {
    if f.Saved? then f.tree else map[]
  }

  /** When a call is a full run: asked for, no snapshot, an unexpectedly empty index, or
      more garbage than half the live chunks. */
  predicate FullNeeded(d: Durable, call: Call) {
    || call.forceFull
    || d.snapshot.NoSnapshot?
    || (d.committed.ids == [] && !d.declaresEmpty)
    || (StaleRatio(d.committed).Some? && StaleRatio(d.committed).value > 0.5)
  }

  predicate AnySupported(p: Project, paths: seq<string>) {
    exists i :: 0 <= i < |paths| && p.supported(paths[i])
  }

  /** A full run that finds supported files but no chunk is refused. */
  predicate Refused(p: Project, d: Durable, call: Call)
    requires Listed(call)
  {
    FullNeeded(d, call) && ItemsOf(p, call.tree, call.order) == [] && AnySupported(p, call.order)
  }

  predicate NothingToDo(d: Durable, call: Call) {
    !FullNeeded(d, call) && !HasChanges(Changes(KnownTree(d.snapshot), call.tree))
  }

  /** The chunks a call embeds. */
  function BatchOf(p: Project, d: Durable, call: Call): seq<Item>
    requires Listed(call)
  {
    ReindexedAreThere(KnownTree(d.snapshot), call.tree);
    ItemsOf(p, call.tree,
            if FullNeeded(d, call) then call.order else FilesToReindex(Changes(KnownTree(d.snapshot), call.tree)))
  }

  /** The index a call builds from its tree. */
  function Built(p: Project, d: Durable, call: Call): Store
    requires Listed(call)
  {
    if FullNeeded(d, call) then Rebuilt(p, call.tree, call.order)
    else Patched(p, d.committed, KnownTree(d.snapshot), call.tree)
  }

  /** The stores as a transaction finds them: the vectors and the list of ids are not loaded. */
  function Unloaded(s: Store): Store {
    s.(vectors := 0, ids := [])
  }

  /** The first removal or the first batch loads them; a full run starts new ones. */
  predicate Loads(p: Project, d: Durable, call: Call)
    requires Listed(call)
  {
    || FullNeeded(d, call)
    || FilesToRemove(Changes(KnownTree(d.snapshot), call.tree)) != []
    || BatchOf(p, d, call) != []
  }

  /** What `save_index` finds in memory. */
  function WorkingAtSave(p: Project, d: Durable, call: Call): Store
    requires Listed(call)
  {
    if Loads(p, d, call) then Built(p, d, call) else Unloaded(d.committed)
  }

  /** Refuse to replace at least five stored ids by fewer than half as many. */
  predicate Truncates(memory: nat, stored: nat) {
    stored >= 5 && 2 * memory < stored
  }

  /** Only a full run forces its way past the guard. */
  predicate GuardRefuses(p: Project, d: Durable, call: Call)
    requires Listed(call)
  {
    !FullNeeded(d, call) && Truncates(|WorkingAtSave(p, d, call).ids|, |d.committed.ids|)
  }

  /** Where a successful call ends, or None if it cannot succeed. */
  function AfterCall(p: Project, d: Durable, call: Call): Option<Durable>
    requires Listed(call)
  {
    if Refused(p, d, call) then None
    else if NothingToDo(d, call) then Some(d)
    else if GuardRefuses(p, d, call) then None
    else Some(Durable(Built(p, d, call), Saved(call.tree), FullNeeded(d, call) && !AnySupported(p, call.order)))
  }

  // ---------------------------------------------------------------------------
  // Sequences of successful calls
  // ---------------------------------------------------------------------------

  function AfterCalls(p: Project, d: Durable, calls: seq<Call>): Option<Durable>
    requires forall i | 0 <= i < |calls| :: Listed(calls[i])
  {
    if calls == [] then Some(d)
    else
      var before := AfterCalls(p, d, calls[..|calls| - 1]);
      if before.None? then None else AfterCall(p, before.value, calls[|calls| - 1])
  }

  /** The snapshot is the tree whose chunks the index holds. */
  ghost predicate InStep(p: Project, d: Durable) {
    && d.snapshot.Saved? && PlainTree(d.snapshot.tree)
    && Valid(d.committed) && FtsExact(d.committed)
    && Represents(p, d.snapshot.tree, d.committed)
  }

  lemma CallKeepsStep(p: Project, d: Durable, call: Call)
    requires WellBehaved(p) && SoundCall(call)
    requires InStep(p, d) || d.snapshot.NoSnapshot?
    requires AfterCall(p, d, call).Some?
    ensures InStep(p, AfterCall(p, d, call).value)
    ensures AfterCall(p, d, call).value.snapshot == Saved(call.tree)
  {
    hide WellBehaved, Represents, Valid, FtsExact, Changes, StaleRatio, Rebuilt, Patched;
    if FullNeeded(d, call) {
      RebuildRepresents(p, call.tree, call.order);
    } else {
      var t0 := d.snapshot.tree;
      ChangesPartition(Changes(t0, call.tree), t0, call.tree, "");
      PatchRefinesRebuild(p, d.committed, t0, call.tree);
    }
  }

  /** Refinement: after any sequence of successful calls over changing trees, starting
      without a snapshot, the live chunks and their metadata are those of one full rebuild
      of the latest tree, and snapshot and index are in step. */
  lemma {:induction false} CallsRefineRebuild(p: Project, d: Durable, calls: seq<Call>)
    requires WellBehaved(p) && d.snapshot.NoSnapshot?
    requires calls != [] && forall i | 0 <= i < |calls| :: SoundCall(calls[i]) && Listed(calls[i])
    requires AfterCalls(p, d, calls).Some?
    ensures var last, final := calls[|calls| - 1], AfterCalls(p, d, calls).value;
            && InStep(p, final) && final.snapshot == Saved(last.tree)
            && Live(final.committed) == Live(Rebuilt(p, last.tree, last.order))
  {
    var before, last := calls[..|calls| - 1], calls[|calls| - 1];
    if before != [] {
      CallsRefineRebuild(p, d, before);
    }
    CallKeepsStep(p, AfterCalls(p, d, before).value, last);
    RebuildRepresents(p, last.tree, last.order);
    RepresentationIsUnique(p, last.tree, AfterCalls(p, d, calls).value.committed, Rebuilt(p, last.tree, last.order));
  }

  /** The next full run after one leaves nothing stale: compaction does not repeat. */
  lemma FullRunCompacts(p: Project, d: Durable, call: Call)
    requires WellBehaved(p) && SoundCall(call) && FullNeeded(d, call)
    ensures StaleSlots(Built(p, d, call)) == {}
    ensures StaleRatio(Built(p, d, call)).None? || StaleRatio(Built(p, d, call)).value == 0.0
  {
    RebuildRepresents(p, call.tree, call.order);
    if Built(p, d, call).vectors > 0 {
      RatioMeasuresStaleness(Built(p, d, call));
    }
  }

  // ---------------------------------------------------------------------------
  // When a call rebuilds, and when it only patches
  // ---------------------------------------------------------------------------

  /** The caller asks for a rebuild, or there is nothing to build upon: no snapshot, or an index without chunks that
      no earlier run declared empty. */
  predicate MustRebuild(d: Durable, call: Call) {
    call.forceFull || d.snapshot.NoSnapshot? || (d.committed.ids == [] && !d.declaresEmpty)
  }

  /** More than half as many slots are stale as chunks are live. */
  predicate MostlyStale(s: Store) {
    2 * |StaleSlots(s)| > if |s.metadata| > 1 then |s.metadata| else 1
  }

  /** What a rebuild leaves, whatever the snapshot and the stores said before. */
  ghost predicate Clean(p: Project, t: Tree, d: Durable) {
    && InStep(p, d) && d.snapshot == Saved(t)
    && Represents(p, t, d.committed) && StaleSlots(d.committed) == {}
  }

  /** On a valid store a full run is taken in exactly these cases. */
  lemma FullNeededIff(d: Durable, call: Call)
    requires Valid(d.committed)
    ensures FullNeeded(d, call) <==> MustRebuild(d, call) || MostlyStale(d.committed)
  {
    StaleCount(d.committed);
    if d.committed.vectors > 0 { RatioMeasuresStaleness(d.committed); }
  }

  /** A success of a call that must rebuild, or that finds a valid store mostly stale, ends clean. */
  lemma RebuildingCallEndsClean(p: Project, d: Durable, call: Call)
    requires WellBehaved(p) && SoundCall(call) && Listed(call)
    requires MustRebuild(d, call) || (Valid(d.committed) && MostlyStale(d.committed))
    requires AfterCall(p, d, call).Some?
    ensures Clean(p, call.tree, AfterCall(p, d, call).value)
  {
    if Valid(d.committed) { FullNeededIff(d, call); }
    RebuildRepresents(p, call.tree, call.order);
  }

  /** And any other call keeps the vectors and ids it finds, and appends those of the new and changed files alone. */
  lemma PatchingCallKeepsVectors(p: Project, d: Durable, call: Call)
    requires SoundCall(call) && Listed(call) && Valid(d.committed)
    requires !MustRebuild(d, call) && !MostlyStale(d.committed) && AfterCall(p, d, call).Some?
    ensures forall path | path in FilesToReindex(Changes(KnownTree(d.snapshot), call.tree)) :: path in call.tree
    ensures AfterCall(p, d, call).value.committed.ids ==
            d.committed.ids + ItemIds(ItemsOf(p, call.tree, FilesToReindex(Changes(KnownTree(d.snapshot), call.tree))))
  {
    hide Valid, MustRebuild, MostlyStale, FullNeeded, ItemsOf, Changes, FilesToReindex, HasChanges;
    FullNeededIff(d, call);
    var t0, t := KnownTree(d.snapshot), call.tree;
    ReindexedAreThere(t0, t);
    PatchedIds(p, d.committed, t0, t);
    if NothingToDo(d, call) {
      NothingReindexed(t0, t);
      NoItems(p, t, FilesToReindex(Changes(t0, t)));
    }
  }

  lemma PatchedIds(p: Project, s: Store, t0: Tree, t: Tree)
    ensures forall path | path in FilesToReindex(Changes(t0, t)) :: path in t
    ensures Patched(p, s, t0, t).ids == s.ids + ItemIds(ItemsOf(p, t, FilesToReindex(Changes(t0, t))))
  {
    ReindexedAreThere(t0, t);
    RemovingKeepsIds(s, FilesToRemove(Changes(t0, t)), p.name);
  }

  lemma NothingReindexed(t0: Tree, t: Tree)
    requires !HasChanges(Changes(t0, t))
    ensures FilesToReindex(Changes(t0, t)) == []
  {
    SomeMember(FilesToReindex(Changes(t0, t)));
  }

  /** A call that finds the tree of the snapshot changes nothing. */
  lemma UnchangedTreeIsLeftAlone(p: Project, d: Durable, call: Call)
    requires Listed(call) && Valid(d.committed) && !MustRebuild(d, call) && !MostlyStale(d.committed)
    requires d.snapshot == Saved(call.tree)
    ensures AfterCall(p, d, call) == Some(d)
  {
    FullNeededIff(d, call);
    ChangesPartition(Changes(call.tree, call.tree), call.tree, call.tree, "");
  }

  /** How a forced call ends: refused exactly when there are supported files and none of them yields a chunk, and
      declaring an empty corpus exactly when there are no supported files. */
  lemma ForcedCallOutcome(p: Project, d: Durable, call: Call)
    requires Listed(call) && call.forceFull
    ensures AfterCall(p, d, call).None? <==>
            && (exists path :: path in call.order && p.supported(path))
            && (forall path | path in call.order :: FileItems(p, path, call.tree[path]) == [])
    ensures AfterCall(p, d, call).Some? ==>
            (AfterCall(p, d, call).value.declaresEmpty <==> forall path | path in call.order :: !p.supported(path))
  {
    if forall path | path in call.order :: FileItems(p, path, call.tree[path]) == [] {
      NoItems(p, call.tree, call.order);
    } else {
      var path :| path in call.order && FileItems(p, path, call.tree[path]) != [];
      var item := FileItems(p, path, call.tree[path])[0];
      ItemCollected(p, call.tree, call.order, path, item);
    }
    if AnySupported(p, call.order) {
      var i :| 0 <= i < |call.order| && p.supported(call.order[i]);
      assert call.order[i] in call.order;
    }
  }

  // ---------------------------------------------------------------------------
  // The truncation guard
  // ---------------------------------------------------------------------------

  lemma {:induction false} RemovingKeepsIds(s: Store, files: seq<string>, project: string)
    ensures RemoveAll(s, files, project).ids == s.ids
  {
    if files != [] { RemovingKeepsIds(s, files[..|files| - 1], project); }
  }

  /** On an incremental call the guard fires exactly when nothing made it load the stored ids: no file to remove and
      no chunk to add, although there are five ids or more.  It never meets a list that really shrank. */
  lemma GuardRefusesIff(p: Project, d: Durable, call: Call)
    requires Listed(call) && !FullNeeded(d, call)
    ensures GuardRefuses(p, d, call) <==>
            && FilesToRemove(Changes(KnownTree(d.snapshot), call.tree)) == []
            && BatchOf(p, d, call) == []
            && |d.committed.ids| >= 5
  {
    RemovingKeepsIds(d.committed, FilesToRemove(Changes(KnownTree(d.snapshot), call.tree)), p.name);
  }

  lemma {:induction false} NoItems(p: Project, t: Tree, paths: seq<string>)
    requires forall path | path in paths :: path in t && FileItems(p, path, t[path]) == []
    ensures ItemsOf(p, t, paths) == []
  {
    if paths != [] { NoItems(p, t, paths[..|paths| - 1]); }
  }

  /** The tree only gained files, and these yield no chunks. */
  ghost predicate GainsChunkless(p: Project, t0: Tree, t: Tree) {
    && t0 != t
    && (forall path | path in t0 :: path in t && t[path] == t0[path])
    && (forall path | path in t && path !in t0 :: FileItems(p, path, t[path]) == [])
  }

  lemma SomeMember(paths: seq<string>)
    ensures paths != [] ==> exists path :: path in paths
  {
    if paths != [] { assert paths[0] in paths; }
  }

  lemma ChunklessChanges(p: Project, t0: Tree, t: Tree)
    requires GainsChunkless(p, t0, t) && PlainTree(t) && PlainTree(t0)
    ensures FilesToRemove(Changes(t0, t)) == [] && HasChanges(Changes(t0, t))
    ensures forall path | path in FilesToReindex(Changes(t0, t)) :: path in t
    ensures ItemsOf(p, t, FilesToReindex(Changes(t0, t))) == []
  {
    hide HasChanges, FilesToRemove, FilesToReindex, Describes;
    var c := Changes(t0, t);
    forall path ensures path !in FilesToRemove(c) {
      FileLists(c, t0, t, path);
    }
    SomeMember(FilesToRemove(c));
    ReindexedAreThere(t0, t);
    forall path | path in FilesToReindex(c) ensures FileItems(p, path, t[path]) == [] {
      FileLists(c, t0, t, path);
    }
    NoItems(p, t, FilesToReindex(c));
    ChangesPartition(c, t0, t, "");
  }

  /** So new files without chunks cannot be recorded: with snapshot and index in step, the call that finds them and
      nothing else fails, and again each time, although the index already is what the tree asks for. */
  lemma ChunklessFilesBlock(p: Project, d: Durable, call: Call)
    requires SoundCall(call) && Listed(call) && !FullNeeded(d, call) && InStep(p, d) && |d.committed.ids| >= 5
    requires GainsChunkless(p, d.snapshot.tree, call.tree)
    ensures !NothingToDo(d, call) && AfterCall(p, d, call).None?
    ensures Represents(p, call.tree, d.committed)
  {
    ChunklessChanges(p, d.snapshot.tree, call.tree);
    GuardRefusesIff(p, d, call);
    assert forall id, meta: Meta ::
      InFile(p, call.tree, meta.relativePath, id, meta) <==> InFile(p, d.snapshot.tree, meta.relativePath, id, meta);
  }

  /** One chunk for every file but the empty ones. */
  function ChunkUnlessEmpty(name: string): Project {
    Project(name, _ => true,
            (path, hash) => if hash == "" then [] else [Item(path, Meta(path, "/" + path, name, hash))])
  }

  lemma ChunkUnlessEmptyIsWellBehaved(name: string)
    ensures WellBehaved(ChunkUnlessEmpty(name))
  {
    hide Normalize, IsAbsolute;
    var p := ChunkUnlessEmpty(name);
    forall path, hash ensures |FileItems(p, path, hash)| <= 1 {
    }
    forall path, hash, item | item in FileItems(p, path, hash)
      ensures item == Item(path, Meta(path, "/" + path, name, hash))
    {
    }
    forall path, hash, item | Plain(path) && item in FileItems(p, path, hash) ensures OwnedBy(p, path, item.meta) {
      SlashStaysInFront(path);
    }
  }

  lemma {:induction false} OneItemEach(p: Project, t: Tree, paths: seq<string>)
    requires forall path | path in paths :: path in t && |FileItems(p, path, t[path])| == 1
    ensures |ItemsOf(p, t, paths)| == |paths|
  {
    if paths != [] { OneItemEach(p, t, paths[..|paths| - 1]); }
  }

  lemma IndexedFiles(p: Project, t: Tree, order: seq<string>) returns (d: Durable)
    requires WellBehaved(p) && PlainTree(t) && Lists(order, t) && order != []
    requires forall path | path in order :: |FileItems(p, path, t[path])| == 1
    ensures InStep(p, d) && d.snapshot.tree == t && |d.committed.ids| == |order|
    ensures StaleRatio(d.committed) == Some(0.0)
  {
    d := Durable(Rebuilt(p, t, order), Saved(t), false);
    RebuildRepresents(p, t, order);
    OneItemEach(p, t, order);
    FullRunCompacts(p, d, Call(t, order, true));
  }

  /** Such states exist: at least five files are indexed, then an empty one is added. */
  lemma EmptyFileBlocks(order: seq<string>, path: string) returns (p: Project, d: Durable, call: Call)
    requires Distinct(order) && |order| >= 5 && path !in order
    requires forall name | name in order + [path] :: Plain(name)
    ensures WellBehaved(p) && InStep(p, d) && SoundCall(call) && Listed(call) && !FullNeeded(d, call)
    ensures call.tree == d.snapshot.tree[path := ""] && !NothingToDo(d, call) && AfterCall(p, d, call).None?
  {
    hide WellBehaved, Represents, Valid, FtsExact, Plain, Changes, HasChanges, AfterCall, NothingToDo;
    p := ChunkUnlessEmpty("project");
    ChunkUnlessEmptyIsWellBehaved("project");
    var t0: Tree := map name | name in order :: "text";
    d := IndexedFiles(p, t0, order);
    call := Call(t0[path := ""], order + [path], false);
    ChunklessFilesBlock(p, d, call);
  }

  // ---------------------------------------------------------------------------
  // After a stop between index and snapshot
  // ---------------------------------------------------------------------------

  /** A stop after the index of `t1` was committed but before its snapshot was saved: the
      next incremental call ends in the state of a full rebuild exactly when every path is
      reconciled.  A torn snapshot is the case where the snapshot knows no file. */
  lemma AfterStopIffReconciled(p: Project, d: Durable, t1: Tree, call: Call)
    requires WellBehaved(p) && SoundCall(call) && PlainTree(t1) && PlainTree(KnownTree(d.snapshot))
    requires Valid(d.committed) && Represents(p, t1, d.committed)
    requires !FullNeeded(d, call)
    ensures Represents(p, call.tree, Built(p, d, call)) <==>
            forall path :: Reconciled(p, KnownTree(d.snapshot), t1, call.tree, path)
  {
    PatchIsRebuildIffReconciled(p, d.committed, KnownTree(d.snapshot), t1, call.tree);
  }

  /** When the stop came inside the writing of the snapshot, nothing is removed: the next call is exact if and only if
      each chunk of the index has the id of a chunk of the new tree's file. */
  lemma AfterTornSnapshotIff(p: Project, d: Durable, t1: Tree, call: Call)
    requires WellBehaved(p) && SoundCall(call) && PlainTree(t1) && d.snapshot.Torn?
    requires Valid(d.committed) && Represents(p, t1, d.committed) && !FullNeeded(d, call)
    ensures Represents(p, call.tree, Built(p, d, call)) <==>
            forall path :: IdsStay(p, t1, call.tree, path)
  {
    hide WellBehaved, Valid, Represents, Reconciled, PlainTree, InFile, IdOf, Built, SoundCall;
    NoTree(d.snapshot);
    AfterStopIffReconciled(p, d, t1, call);
    forall path ensures Reconciled(p, map[], t1, call.tree, path) <==> IdsStay(p, t1, call.tree, path) {
      UnknownPath(p, t1, call.tree, path);
    }
  }

  lemma NoTree(f: SnapshotFile)
    requires f.Torn?
    ensures KnownTree(f) == map[] && PlainTree(KnownTree(f))
  {
  }

  /** Each chunk that the file had has the id of one it has now. */
  ghost predicate IdsStay(p: Project, t1: Tree, t: Tree, path: string) {
    forall id, meta: Meta | meta.relativePath == path && InFile(p, t1, path, id, meta) :: IdOf(p, t, path, id)
  }

  lemma UnknownPath(p: Project, t1: Tree, t: Tree, path: string)
    ensures Reconciled(p, map[], t1, t, path) <==> IdsStay(p, t1, t, path)
  {
  }

  /** The failure is real: a file first indexed by the interrupted run and deleted before
      the next one keeps its chunks. */
  lemma DeletedFileKeepsChunks(p: Project, d: Durable, t1: Tree, call: Call, path: string)
    requires WellBehaved(p) && SoundCall(call) && PlainTree(t1) && PlainTree(KnownTree(d.snapshot))
    requires Valid(d.committed) && Represents(p, t1, d.committed)
    requires !FullNeeded(d, call)
    requires path in t1 && path !in KnownTree(d.snapshot) && path !in call.tree
    requires FileItems(p, path, t1[path]) != []
    ensures !Represents(p, call.tree, Built(p, d, call))
  {
    var item := FileItems(p, path, t1[path])[0];
    assert item in FileItems(p, path, t1[path]) && item == Item(item.id, item.meta);
    assert InFile(p, t1, path, item.id, item.meta);
    AfterStopIffReconciled(p, d, t1, call);
    assert !Reconciled(p, KnownTree(d.snapshot), t1, call.tree, path);
  }

  // ---------------------------------------------------------------------------
  // One call, step by step
  // ---------------------------------------------------------------------------

  /** A durable state met during a call that builds `built` from `tree`: untouched, or
      holding that index, with the old snapshot or with the call's own (perhaps torn). */
  predicate NeverAhead(before: Durable, built: Store, tree: Tree, d: Durable) {
    || d == before
    || (d.committed == built
        && (d == before.(committed := built) || d.snapshot == Torn || d.snapshot == Saved(tree)))
  }

  class IncrementalIndexer {
    const project: Project
    /** The mutable stores; only `durable` survives a stop. */
    var working: Store
    /** Whether the vectors and the list of ids are in memory. */
    var loaded: bool
    var durable: Durable
    /** Every durable state so far, the present one last. */
    var history: seq<Durable>
    /** What becomes of the fallible actions to come; once it is used up, all succeed. */
    var plan: seq<Fate>

    constructor (p: Project, d: Durable, fates: seq<Fate>)
      ensures project == p && durable == d && !loaded && Idle() && history == [d] && plan == fates
    {
      project, durable, loaded, working, history := p, d, false, Unloaded(d.committed), [d];
      plan := fates;
    }

    /** How many errors are still to come. */
    function Errors(): nat
      reads this
    {
      Failures(plan)
    }

    /** An action that changes nothing durable, such as embedding a batch. */
    method Attempt() returns (ok: bool)
      modifies this`plan
      ensures Errors() == if ok then old(Errors()) else old(Errors()) - 1
    {
      ok := FateOf(plan) == Lands;
      plan := Rest(plan);
    }

    ghost predicate InMemory(s: Store)
      reads this
    {
      working == if loaded then s else Unloaded(s)
    }

    ghost predicate Idle()
      reads this
    {
      InMemory(durable.committed) && history != [] && history[|history| - 1] == durable
    }

    ghost predicate During(mark: nat, before: Durable, built: Store, tree: Tree)
      reads this
    {
      && mark < |history| && history[|history| - 1] == durable
      && forall i | mark <= i < |history| :: NeverAhead(before, built, tree, history[i])
    }

    /** `_rebase_publication_working_set` at the start of a transaction, and what a rollback leaves. */
    method Rebase()
      modifies this`working, this`loaded
      ensures !loaded && InMemory(durable.committed)
    {
      working, loaded := Unloaded(durable.committed), false;
    }

    /** `_load_index`, unless it is loaded. */
    method Load()
      requires !loaded ==> InMemory(durable.committed)
      modifies this`working, this`loaded
      ensures loaded && working == if old(loaded) then old(working) else durable.committed
    {
      if !loaded {
        working, loaded := working.(vectors := durable.committed.vectors, ids := durable.committed.ids), true;
      }
    }

    /** One durable write.  An error may strike before or after it lands. */
    method Record(next: Durable, ghost mark: nat, ghost before: Durable, ghost built: Store, ghost tree: Tree)
      returns (ok: bool)
      requires During(mark, before, built, tree) && NeverAhead(before, built, tree, next)
      modifies this`durable, this`history, this`plan
      ensures During(mark, before, built, tree) && old(history) <= history
      ensures durable == next || durable == old(durable)
      ensures ok ==> durable == next
      ensures Errors() == if ok then old(Errors()) else old(Errors()) - 1
    {
      var fate := FateOf(plan);
      plan := Rest(plan);
      if fate != Raises {
        durable, history := next, history + [next];
      }
      ok := fate == Lands;
    }

    /** `save_snapshot`: the tree file, then its metadata file, neither written atomically. */
    method SaveSnapshot(tree: Tree, declaresEmpty: bool, ghost mark: nat, ghost before: Durable, ghost built: Store)
      returns (ok: bool)
      requires During(mark, before, built, tree) && durable.committed == built
      modifies this`durable, this`history, this`plan
      ensures During(mark, before, built, tree) && old(history) <= history
      ensures Errors() == if ok then old(Errors()) else old(Errors()) - 1
      ensures durable.committed == old(durable).committed
      ensures ok ==> durable == Durable(built, Saved(tree), declaresEmpty)
    {
      ok := Record(durable.(snapshot := Torn), mark, before, built, tree);
      if !ok { return; }
      ok := Record(durable.(snapshot := Saved(tree)), mark, before, built, tree);
      if !ok { return; }
      ok := Record(durable.(declaresEmpty := false), mark, before, built, tree);
      if !ok { return; }
      ok := Record(durable.(declaresEmpty := declaresEmpty), mark, before, built, tree);
    }

    /** `save_index` inside the transaction: refused, nothing to save, or the working stores become the published
        ones; a failure rolls them back to whatever is published. */
    method Publish(force: bool, ghost mark: nat, ghost before: Durable, ghost built: Store, ghost tree: Tree)
      returns (ok: bool)
      requires During(mark, before, built, tree) && durable == before
      requires InMemory(built) && (!loaded ==> built == durable.committed)
      modifies this
      ensures During(mark, before, built, tree) && old(history) <= history
      ensures durable == before || durable == before.(committed := built)
      ensures ok ==> durable.committed == built
      ensures !force && Truncates(|old(working).ids|, |before.committed.ids|) ==> !ok && history == old(history)
      ensures ok ==> Errors() == old(Errors())
      ensures !ok ==> (!force && Truncates(|old(working).ids|, |before.committed.ids|)) || Errors() < old(Errors())
      ensures InMemory(durable.committed)
    {
      if !force && Truncates(|working.ids|, |durable.committed.ids|) {
        Rebase();
        return false;
      }
      if !loaded {
        return true;
      }
      ok := Record(durable.(committed := working), mark, before, built, tree);
      if !ok { Rebase(); }
    }

    /** Publish the working stores, and only then save the snapshot. */
    method PublishThenSnapshot(force: bool, tree: Tree, declaresEmpty: bool, ghost built: Store) returns (ok: bool)
      requires history != [] && history[|history| - 1] == durable
      requires InMemory(built) && (!loaded ==> built == durable.committed)
      modifies this
      ensures InMemory(durable.committed) && old(history) <= history
      ensures During(|old(history)| - 1, old(durable), built, tree)
      ensures ok ==> durable == Durable(built, Saved(tree), declaresEmpty)
      ensures durable == old(durable) || durable.committed == built
      ensures !force && Truncates(|old(working).ids|, |old(durable).committed.ids|) ==> !ok && history == old(history)
      ensures !ok ==>
                (!force && Truncates(|old(working).ids|, |old(durable).committed.ids|)) || Errors() < old(Errors())
      ensures ok ==> Errors() == old(Errors())
    {
      ghost var mark, before := |history| - 1, durable;
      ok := Publish(force, mark, before, built, tree);
      if ok {
        ok := SaveSnapshot(tree, declaresEmpty, mark, before, built);
      }
    }

    /** `_remove_old_chunks`: file by file; a failure leaves the working stores in between. */
    method RemoveFiles(files: seq<string>) returns (ok: bool)
      requires !loaded && InMemory(durable.committed)
      modifies this`working, this`loaded, this`plan
      ensures ok ==> loaded == (files != []) && InMemory(RemoveAll(durable.committed, files, project.name))
      ensures Errors() == if ok then old(Errors()) else old(Errors()) - 1
    {
      ok := true;
      for i := 0 to |files|
        invariant loaded == (i > 0) && InMemory(RemoveAll(durable.committed, files[..i], project.name))
        invariant Errors() == old(Errors())
      {
        ok := Attempt();
        if !ok { return; }
        assert files[..i + 1][..i] == files[..i] && files[..i + 1][i] == files[i];
        Load();
        working := Remove(working, files[i], project.name);
      }
      ok := true;
      assert files[..|files|] == files;
    }

    /** `add_embeddings`, called only for a batch that is not empty. */
    method AddItems(items: seq<Item>, ghost s: Store) returns (ok: bool)
      requires InMemory(s) && (!loaded ==> s == durable.committed)
      modifies this`working, this`loaded, this`plan
      ensures ok ==> loaded == (old(loaded) || items != []) && InMemory(Add(s, items))
      ensures Errors() == if ok then old(Errors()) else old(Errors()) - 1
    {
      AddNothing(s);
      ok := true;
      if items != [] {
        ok := Attempt();
        if !ok { return; }
        Load();
        working := Add(working, items);
      }
    }

    /** `begin_rebuild`, then the batch, or an empty index. */
    method RebuildWorking(call: Call, items: seq<Item>) returns (ok: bool)
      requires Listed(call) && items == ItemsOf(project, call.tree, call.order)
      modifies this`working, this`loaded, this`plan
      ensures ok ==> loaded && working == Rebuilt(project, call.tree, call.order)
      ensures Errors() == if ok then old(Errors()) else old(Errors()) - 1
    {
      working, loaded := EMPTY, true;
      ok := AddItems(items, EMPTY);
    }

    method PatchWorking(t0: Tree, t: Tree, remove: seq<string>, items: seq<Item>) returns (ok: bool)
      requires !loaded && InMemory(durable.committed)
      requires remove == FilesToRemove(Changes(t0, t))
      requires forall path | path in FilesToReindex(Changes(t0, t)) :: path in t
      requires items == ItemsOf(project, t, FilesToReindex(Changes(t0, t)))
      modifies this`working, this`loaded, this`plan
      ensures Errors() == if ok then old(Errors()) else old(Errors()) - 1
      ensures ok ==> loaded == (remove != [] || items != [])
      ensures ok ==> InMemory(Patched(project, durable.committed, t0, t))
      ensures ok && !loaded ==> Patched(project, durable.committed, t0, t) == durable.committed
    {
      ok := RemoveFiles(remove);
      if !ok { return; }
      AddNothing(durable.committed);
      ok := AddItems(items, RemoveAll(durable.committed, remove, project.name));
    }

    /** The mutations inside the transaction, from stores that are not loaded yet. */
    method BuildWorking(call: Call, items: seq<Item>) returns (ok: bool)
      requires Listed(call) && !loaded && InMemory(durable.committed)
      requires items == BatchOf(project, durable, call)
      modifies this`working, this`loaded, this`plan
      ensures Errors() == if ok then old(Errors()) else old(Errors()) - 1
      ensures ok ==> InMemory(Built(project, durable, call)) && working == WorkingAtSave(project, durable, call)
      ensures ok && !loaded ==> Built(project, durable, call) == durable.committed
    {
      hide FilesToRemove, FilesToReindex, Rebuilt, ItemsOf, StaleRatio, HasChanges;
      if FullNeeded(durable, call) {
        ok := RebuildWorking(call, items);
      } else {
        var t0 := KnownTree(durable.snapshot);
        ReindexedAreThere(t0, call.tree);
        ok := PatchWorking(t0, call.tree, FilesToRemove(Changes(t0, call.tree)), items);
      }
    }

    /** `incremental_index` with `_full_index`.  A success ends where the functions say; and
        at every durable state on the way, whatever fails, the snapshot has changed only
        if the index built from that same tree is the published one. */
    method Index(call: Call) returns (ok: bool)
      requires Idle() && Listed(call)
      modifies this
      ensures Idle() && old(history) <= history
      ensures forall i | |old(history)| <= i < |history| ::
                NeverAhead(old(durable), Built(project, old(durable), call), call.tree, history[i])
      ensures durable == old(durable) || durable.committed == Built(project, old(durable), call)
      ensures ok ==> AfterCall(project, old(durable), call) == Some(durable)
      ensures AfterCall(project, old(durable), call).None? ==> !ok && history == old(history)
      ensures !ok && AfterCall(project, old(durable), call).Some? ==> Errors() < old(Errors())
      ensures ok && WellBehaved(project) && SoundCall(call) && MustRebuild(old(durable), call) ==>
                Clean(project, call.tree, durable)
      ensures ok ==> Errors() == old(Errors())
    {
      hide Clean, WellBehaved, SoundCall, Patched, Rebuilt, ItemsOf, StaleRatio, FilesToRemove, FilesToReindex;
      if !FullNeeded(durable, call) {
        var c := DetectChanges(KnownTree(durable.snapshot), call.tree);
        if !HasChanges(c) {
          return true;
        }
      }
      ghost var before := durable;
      // chunking and embedding come before any mutation
      var embedded := Attempt();
      if !embedded {
        return false;
      }
      if Refused(project, durable, call) {
        return false;
      }
      var declaresEmpty := FullNeeded(durable, call) && !AnySupported(project, call.order);
      Rebase();
      ok := BuildWorking(call, BatchOf(project, durable, call));
      if !ok {
        Rebase();
        return;
      }
      ok := PublishThenSnapshot(FullNeeded(durable, call), call.tree, declaresEmpty, Built(project, durable, call));
      if ok && WellBehaved(project) && SoundCall(call) && MustRebuild(before, call) {
        RebuildingCallEndsClean(project, before, call);
      }
    }
  }

  lemma AddNothing(s: Store)
    ensures Add(s, []) == s
  {
    NothingDead(s.fts, BatchIds([]));
  }
}
