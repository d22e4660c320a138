/** Incremental indexing: runs over changing trees, and how the live index relates to a
    full rebuild of the latest tree. */
module Incremental {
  import opened Wrappers
  import opened FilePaths
  import opened PathOrder
  import opened Merkle
  import opened IndexStore

  /** Paths and the hashes of their contents. */
  type Tree = map<string, string>

  /** The project name, which files the chunker supports, and the embedded chunks of a
      file.  Chunks depend on path and hashed content only. */
  datatype Project = Project(name: string, supported: string -> bool, chunk: (string, string) -> seq<Item>)

  /** The items of a file of the tree; none for unsupported files. */
  function FileItems(p: Project, path: string, hash: string): seq<Item> {
    if p.supported(path) then p.chunk(path, hash) else []
  }

  /** Chunk ids start with the relative path: they are distinct within a file and never
      shared between files.  The metadata names the file and the project. */
  ghost predicate WellBehaved(p: Project) {
    && (forall path, hash :: Plain(path) ==> DistinctIds(FileItems(p, path, hash)))
    && (forall path, hash, item :: Plain(path) && item in FileItems(p, path, hash) ==> OwnedBy(p, path, item.meta))
    && (forall path, hash, item, path', hash', item'
          | Plain(path) && Plain(path') && item in FileItems(p, path, hash) && item' in FileItems(p, path', hash') ::
          item.id == item'.id ==> path == path')
  }

  /** A chunker that makes one chunk of every file, named by its path. */
  function OneChunkPerFile(name: string): Project {
    Project(name, _ => true, (path, hash) => [Item(path, Meta(path, "/" + path, name, hash))])
  }

  /** So the conditions above can be met. */
  lemma OneChunkPerFileIsWellBehaved(name: string)
    ensures WellBehaved(OneChunkPerFile(name))
  {
    forall path, hash, item | Plain(path) && item in FileItems(OneChunkPerFile(name), path, hash)
      ensures OwnedBy(OneChunkPerFile(name), path, item.meta)
    {
      SlashStaysInFront(path);
    }
  }

  lemma SlashStaysInFront(path: string)
    requires Plain(path)
    ensures IsAbsolute(Normalize("/" + path))
  {
    SlashesInFront(path);
    StripOnlyTrailing("/" + ForwardSlashes(path), ForwardSlashes(path));
  }

  lemma {:induction false} SlashesInFront(path: string)
    ensures ForwardSlashes("/" + path) == "/" + ForwardSlashes(path)
  {
    if path == [] {
      assert "/"[..0] == "";
    } else {
      SlashesInFront(path[..|path| - 1]);
      assert ("/" + path)[..|path|] == "/" + path[..|path| - 1];
    }
  }

  /** Stripping stops at a path that ends with no slash. */
  lemma StripOnlyTrailing(whole: string, path: string)
    requires whole == "/" + path && StripTrailing(path) != ""
    ensures StripTrailing(whole) != "" && StripTrailing(whole)[0] == '/'
    decreases path
  {
    if path[|path| - 1] == '/' {
      assert whole[..|whole| - 1] == "/" + path[..|path| - 1];
      StripOnlyTrailing(whole[..|whole| - 1], path[..|path| - 1]);
    }
  }

  ghost predicate OwnedBy(p: Project, path: string, meta: Meta) {
    meta.relativePath == path && meta.project == p.name && IsAbsolute(Normalize(meta.filePath))
  }

  ghost predicate PlainTree(t: Tree) {
    forall path | path in t :: Plain(path)
  }

  // ---------------------------------------------------------------------------
  // What a store should hold for a tree
  // ---------------------------------------------------------------------------

  ghost predicate InFile(p: Project, t: Tree, path: string, id: string, meta: Meta) {
    path in t && Item(id, meta) in FileItems(p, path, t[path])
  }

  predicate IsLive(s: Store, id: string, meta: Meta) {
    id in s.metadata && s.metadata[id].meta == meta
  }

  /** The live chunks and their metadata are exactly the chunks of the tree's files. */
  ghost predicate Represents(p: Project, t: Tree, s: Store) {
    forall id, meta: Meta :: IsLive(s, id, meta) <==> InFile(p, t, meta.relativePath, id, meta)
  }

  /** In the chunker's terms: the chunks of the supported files, and nothing of the others. */
  lemma RepresentsMeans(p: Project, t: Tree, s: Store)
    ensures Represents(p, t, s) <==> forall id, meta: Meta ::
              IsLive(s, id, meta) <==>
                meta.relativePath in t && p.supported(meta.relativePath)
                && Item(id, meta) in p.chunk(meta.relativePath, t[meta.relativePath])
  {
    forall id, meta: Meta
      ensures InFile(p, t, meta.relativePath, id, meta) <==>
              meta.relativePath in t && p.supported(meta.relativePath)
              && Item(id, meta) in p.chunk(meta.relativePath, t[meta.relativePath])
    {
    }
  }

  /** Two stores that represent one tree have the same live chunks. */
  lemma RepresentationIsUnique(p: Project, t: Tree, s: Store, s': Store)
    requires Represents(p, t, s) && Represents(p, t, s')
    ensures Live(s) == Live(s')
  {
    forall id ensures id in Live(s) <==> id in Live(s') {
      if id in Live(s) { assert IsLive(s, id, Live(s)[id]) && IsLive(s', id, Live(s)[id]); }
      if id in Live(s') { assert IsLive(s', id, Live(s')[id]) && IsLive(s, id, Live(s')[id]); }
    }
    forall id | id in Live(s) ensures Live(s)[id] == Live(s')[id] {
      assert IsLive(s, id, Live(s)[id]) && IsLive(s', id, Live(s)[id]);
    }
  }

  // ---------------------------------------------------------------------------
  // Collecting the chunks of a list of files
  // ---------------------------------------------------------------------------

  function ItemsOf(p: Project, t: Tree, paths: seq<string>): seq<Item>
    requires forall path | path in paths :: path in t
  {
    if paths == [] then []
    else ItemsOf(p, t, paths[..|paths| - 1]) + FileItems(p, paths[|paths| - 1], t[paths[|paths| - 1]])
  }

  lemma {:induction false} ItemOrigin(p: Project, t: Tree, paths: seq<string>, item: Item) returns (path: string)
    requires forall path | path in paths :: path in t
    requires item in ItemsOf(p, t, paths)
    ensures path in paths && item in FileItems(p, path, t[path])
  {
    var last := paths[|paths| - 1];
    if item in FileItems(p, last, t[last]) {
      path := last;
    } else {
      path := ItemOrigin(p, t, paths[..|paths| - 1], item);
    }
  }

  lemma {:induction false} ItemCollected(p: Project, t: Tree, paths: seq<string>, path: string, item: Item)
    requires forall path | path in paths :: path in t
    requires path in paths && item in FileItems(p, path, t[path])
    ensures item in ItemsOf(p, t, paths)
  {
    if path != paths[|paths| - 1] {
      assert path in paths[..|paths| - 1];
      ItemCollected(p, t, paths[..|paths| - 1], path, item);
    }
  }

  lemma DistinctConcat(a: seq<Item>, b: seq<Item>)
    requires DistinctIds(a) && DistinctIds(b)
    requires forall x, y | x in a && y in b :: x.id != y.id
    ensures DistinctIds(a + b)
  {
    forall i, j | 0 <= i < j < |a + b| ensures (a + b)[i].id != (a + b)[j].id {
      if i < |a| <= j {
        assert a[i] in a && b[j - |a|] in b;
      }
    }
  }

  lemma NothingRepeats()
    ensures DistinctIds([])
  {
  }

  lemma LastIsNew(paths: seq<string>)
    requires Distinct(paths) && paths != []
    ensures Distinct(paths[..|paths| - 1]) && paths[|paths| - 1] !in paths[..|paths| - 1]
  {
  }

  lemma {:induction false} CollectedDistinct(p: Project, t: Tree, paths: seq<string>)
    requires WellBehaved(p) && PlainTree(t) && Distinct(paths)
    requires forall path | path in paths :: path in t
    ensures DistinctIds(ItemsOf(p, t, paths))
  {
    hide Distinct, DistinctIds, FileItems, Plain;
    if paths != [] {
      var less, last := paths[..|paths| - 1], paths[|paths| - 1];
      LastIsNew(paths);
      CollectedDistinct(p, t, less);
      forall x, y | x in ItemsOf(p, t, less) && y in FileItems(p, last, t[last]) ensures x.id != y.id {
        var path := ItemOrigin(p, t, less, x);
        assert path in t && path != last;
      }
      DistinctConcat(ItemsOf(p, t, less), FileItems(p, last, t[last]));
    } else {
      NothingRepeats();
    }
  }

  // ---------------------------------------------------------------------------
  // Removing and adding
  // ---------------------------------------------------------------------------

  /** `_remove_old_chunks`. */
  function RemoveAll(s: Store, files: seq<string>, project: string): Store {
    if files == [] then s
    else Remove(RemoveAll(s, files[..|files| - 1], project), files[|files| - 1], project)
  }

  /** Every live chunk belongs to a plain path of the project. */
  ghost predicate Owned(p: Project, s: Store) {
    forall id | id in s.metadata ::
      Plain(s.metadata[id].meta.relativePath) && OwnedBy(p, s.metadata[id].meta.relativePath, s.metadata[id].meta)
  }

  lemma RemovedFile(p: Project, s: Store, file: string, id: string, meta: Meta)
    requires Valid(s) && Owned(p, s) && Plain(file)
    ensures var r := Remove(s, file, p.name);
            && Valid(r) && Owned(p, r) && (FtsExact(s) ==> FtsExact(r))
            && r.vectors == s.vectors && r.ids == s.ids
            && (IsLive(r, id, meta) <==> IsLive(s, id, meta) && meta.relativePath != file)
  {
    var r := Remove(s, file, p.name);
    RemoveFacts(s, file, p.name);
    assert r.metadata.Keys <= s.metadata.Keys;
    assert IsLive(r, id, meta) <==> id in Live(r) && Live(r)[id] == meta;
    if IsLive(s, id, meta) {
      assert id in Live(s) && Live(s)[id] == meta && meta.relativePath != "";
      PlainTargetIsExact(file, meta.relativePath, meta.filePath);
      assert BelongsTo(meta, file, p.name) <==> file == meta.relativePath;
    }
  }

  lemma {:induction false} RemovedFiles(p: Project, s: Store, files: seq<string>, id: string, meta: Meta)
    requires Valid(s) && Owned(p, s) && forall f | f in files :: Plain(f)
    ensures var r := RemoveAll(s, files, p.name);
            && Valid(r) && Owned(p, r) && (FtsExact(s) ==> FtsExact(r))
            && r.vectors == s.vectors && r.ids == s.ids
            && (IsLive(r, id, meta) <==> IsLive(s, id, meta) && meta.relativePath !in files)
  {
    if files != [] {
      var less, last := files[..|files| - 1], files[|files| - 1];
      assert files == less + [last];
      RemovedFiles(p, s, less, id, meta);
      RemovedFile(p, RemoveAll(s, less, p.name), last, id, meta);
    }
  }

  lemma AddedItems(s: Store, batch: seq<Item>, id: string, meta: Meta)
    requires DistinctIds(batch)
    ensures IsLive(Add(s, batch), id, meta) <==>
            Item(id, meta) in batch || (id !in BatchIds(batch) && IsLive(s, id, meta))
  {
    LiveAfterAdd(s, batch, id);
    BatchIdsAreIndexed(batch, id);
    if Item(id, meta) in batch {
      var i :| 0 <= i < |batch| && batch[i] == Item(id, meta);
      DistinctIndex(batch, i);
    }
  }

  // ---------------------------------------------------------------------------
  // A full rebuild
  // ---------------------------------------------------------------------------

  /** A listing of all files of the tree, in any order. */
  ghost predicate Lists(order: seq<string>, t: Tree) {
    Distinct(order) && forall path :: path in order <==> path in t
  }

  function Rebuilt(p: Project, t: Tree, order: seq<string>): Store
    requires forall path | path in order :: path in t
  {
    Add(EMPTY, ItemsOf(p, t, order))
  }

  lemma RebuildRepresents(p: Project, t: Tree, order: seq<string>)
    requires WellBehaved(p) && PlainTree(t) && Lists(order, t)
    ensures var s := Rebuilt(p, t, order);
            Represents(p, t, s) && Valid(s) && FtsExact(s) && Owned(p, s) && StaleSlots(s) == {}
  {
    var batch := ItemsOf(p, t, order);
    var s := Rebuilt(p, t, order);
    CollectedDistinct(p, t, order);
    AddKeepsValid(EMPTY, batch);
    AddKeepsFtsExact(EMPTY, batch);
    forall id, meta: Meta ensures IsLive(s, id, meta) <==> InFile(p, t, meta.relativePath, id, meta) {
      AddedItems(EMPTY, batch, id, meta);
      if Item(id, meta) in batch {
        var path := ItemOrigin(p, t, order, Item(id, meta));
      }
      if InFile(p, t, meta.relativePath, id, meta) {
        ItemCollected(p, t, order, meta.relativePath, Item(id, meta));
      }
    }
    RepresentedIsOwned(p, t, s);
    NothingStale(batch);
  }

  lemma RepresentedIsOwned(p: Project, t: Tree, s: Store)
    requires WellBehaved(p) && PlainTree(t) && Represents(p, t, s)
    ensures Owned(p, s)
  {
    forall id | id in s.metadata
      ensures Plain(s.metadata[id].meta.relativePath)
              && OwnedBy(p, s.metadata[id].meta.relativePath, s.metadata[id].meta)
    {
      assert IsLive(s, id, s.metadata[id].meta);
    }
  }

  /** A rebuild leaves no stale slot, so compaction does not trigger again by itself. */
  lemma NothingStale(batch: seq<Item>)
    requires DistinctIds(batch)
    ensures StaleSlots(Add(EMPTY, batch)) == {}
  {
    var s := Add(EMPTY, batch);
    forall k: nat | k < |s.ids| ensures IsLiveSlot(s, k) {
      DistinctIndex(batch, k);
      AddMetadataLookup(map[], 0, batch, batch[k].id);
    }
  }

  // ---------------------------------------------------------------------------
  // An incremental update
  // ---------------------------------------------------------------------------

  /** Drop the changed and vanished files of the snapshot `t0`, add the changed and new
      ones of `t`. */
  function Patched(p: Project, s: Store, t0: Tree, t: Tree): Store {
    var c := Changes(t0, t);
    ReindexedAreThere(t0, t);
    Add(RemoveAll(s, FilesToRemove(c), p.name), ItemsOf(p, t, FilesToReindex(c)))
  }

  lemma ReindexedAreThere(t0: Tree, t: Tree)
    ensures forall path | path in FilesToReindex(Changes(t0, t)) :: path in t
  {
    ChangesTakeOldToNew(Changes(t0, t), t0, t);
  }

  predicate WasRemoved(t0: Tree, t: Tree, path: string) {
    path in t0 && (path !in t || t0[path] != t[path])
  }

  predicate WasReindexed(t0: Tree, t: Tree, path: string) {
    path in t && (path !in t0 || t0[path] != t[path])
  }

  /** An id of the file's new chunks. */
  ghost predicate IdOf(p: Project, t: Tree, path: string, id: string) {
    path in t && exists item :: item in FileItems(p, path, t[path]) && item.id == id
  }

  lemma ReindexedBatch(p: Project, t0: Tree, t: Tree, id: string, meta: Meta)
    requires WellBehaved(p) && PlainTree(t) && PlainTree(t0)
    ensures forall path | path in FilesToReindex(Changes(t0, t)) :: path in t
    ensures var batch := ItemsOf(p, t, FilesToReindex(Changes(t0, t)));
            && DistinctIds(batch)
            && (Item(id, meta) in batch <==>
                  InFile(p, t, meta.relativePath, id, meta) && WasReindexed(t0, t, meta.relativePath))
  {
    ReindexedAreThere(t0, t);
    var files := FilesToReindex(Changes(t0, t));
    CollectedDistinct(p, t, files);
    FileLists(Changes(t0, t), t0, t, meta.relativePath);
    if Item(id, meta) in ItemsOf(p, t, files) {
      var path := ItemOrigin(p, t, files, Item(id, meta));
    }
    if InFile(p, t, meta.relativePath, id, meta) && WasReindexed(t0, t, meta.relativePath) {
      ItemCollected(p, t, files, meta.relativePath, Item(id, meta));
    }
  }

  lemma InBatch(batch: seq<Item>, item: Item)
    requires item in batch
    ensures item.id in BatchIds(batch)
  {
    var i :| 0 <= i < |batch| && batch[i] == item;
  }

  lemma WithId(batch: seq<Item>, id: string) returns (item: Item)
    requires id in BatchIds(batch)
    ensures item in batch && item.id == id
  {
    var i :| 0 <= i < |batch| && batch[i].id == id;
    item := batch[i];
  }

  /** The ids that a batch overwrites among the chunks of one file are those of its new
      chunks. */
  lemma ReindexedIds(p: Project, t0: Tree, t: Tree, path: string, hash: string, item: Item)
    requires WellBehaved(p) && PlainTree(t) && PlainTree(t0) && Plain(path)
    requires item in FileItems(p, path, hash)
    ensures forall path | path in FilesToReindex(Changes(t0, t)) :: path in t
    ensures item.id in BatchIds(ItemsOf(p, t, FilesToReindex(Changes(t0, t)))) <==>
            WasReindexed(t0, t, path) && IdOf(p, t, path, item.id)
  {
    hide Distinct, Changes, FilesToReindex, BatchIds, ItemsOf, Plain;
    ReindexedAreThere(t0, t);
    var files := FilesToReindex(Changes(t0, t));
    var batch := ItemsOf(p, t, files);
    if item.id in BatchIds(batch) {
      var x := WithId(batch, item.id);
      var origin := ItemOrigin(p, t, files, x);
      FileLists(Changes(t0, t), t0, t, origin);
      assert origin == path;
    }
    if WasReindexed(t0, t, path) && IdOf(p, t, path, item.id) {
      FileLists(Changes(t0, t), t0, t, path);
      var other :| other in FileItems(p, path, t[path]) && other.id == item.id;
      ItemCollected(p, t, files, path, other);
      InBatch(batch, other);
    }
  }

  /** A chunk survives the patch if it is a reindexed chunk of `t`, or a chunk of `t1` that
      was neither removed nor overwritten. */
  ghost predicate Survives(p: Project, t0: Tree, t1: Tree, t: Tree, id: string, meta: Meta) {
    var path := meta.relativePath;
    || (InFile(p, t, path, id, meta) && WasReindexed(t0, t, path))
    || (InFile(p, t1, path, id, meta) && !WasRemoved(t0, t, path)
        && !(WasReindexed(t0, t, path) && IdOf(p, t, path, id)))
  }

  /** What a patched store holds, when the index represented `t1` while the snapshot said
      `t0`: exactly the surviving chunks. */
  lemma PatchedLive(p: Project, s: Store, t0: Tree, t1: Tree, t: Tree, id: string, meta: Meta)
    requires WellBehaved(p) && PlainTree(t0) && PlainTree(t1) && PlainTree(t)
    requires Valid(s) && Represents(p, t1, s)
    ensures IsLive(Patched(p, s, t0, t), id, meta) <==> Survives(p, t0, t1, t, id, meta)
  {
    var files := FilesToRemove(Changes(t0, t));
    RepresentedIsOwned(p, t1, s);
    forall f | f in files ensures Plain(f) {
      FileLists(Changes(t0, t), t0, t, f);
    }
    RemovedFiles(p, s, files, id, meta);
    FileLists(Changes(t0, t), t0, t, meta.relativePath);
    ReindexedBatch(p, t0, t, id, meta);
    AddedItems(RemoveAll(s, files, p.name), ItemsOf(p, t, FilesToReindex(Changes(t0, t))), id, meta);
    if InFile(p, t1, meta.relativePath, id, meta) {
      ReindexedIds(p, t0, t, meta.relativePath, t1[meta.relativePath], Item(id, meta));
    }
  }

  ghost predicate SameChunks(p: Project, t1: Tree, t: Tree, path: string) {
    forall id, meta: Meta | meta.relativePath == path :: InFile(p, t1, path, id, meta) <==> InFile(p, t, path, id, meta)
  }

  /** When the patch gets one path right although the snapshot said `t0` and the index
      held `t1`. */
  ghost predicate Reconciled(p: Project, t0: Tree, t1: Tree, t: Tree, path: string) {
    if path in t0 then
      // unchanged since the snapshot: nothing is touched; otherwise all old chunks go
      path in t && t0[path] == t[path] ==> SameChunks(p, t1, t, path)
    else
      // unknown to the snapshot: nothing is removed, new ids overwrite
      forall id, meta: Meta | meta.relativePath == path && InFile(p, t1, path, id, meta) :: IdOf(p, t, path, id)
  }

  /** Every path is reconciled exactly when the survivors are the chunks of `t`. */
  lemma ReconciledIffSurvivorsMatch(p: Project, t0: Tree, t1: Tree, t: Tree, path: string)
    ensures Reconciled(p, t0, t1, t, path) <==>
            forall id, meta: Meta | meta.relativePath == path ::
              Survives(p, t0, t1, t, id, meta) <==> InFile(p, t, path, id, meta)
  {
    if path !in t0 {
      forall id, meta: Meta | meta.relativePath == path && InFile(p, t, path, id, meta) ensures IdOf(p, t, path, id) {
        assert Item(id, meta) in FileItems(p, path, t[path]);
      }
    }
  }

  /** The exact condition: an incremental run brings the index to the state of a full
      rebuild if and only if every path is reconciled. */
  lemma PatchIsRebuildIffReconciled(p: Project, s: Store, t0: Tree, t1: Tree, t: Tree)
    requires WellBehaved(p) && PlainTree(t0) && PlainTree(t1) && PlainTree(t)
    requires Valid(s) && Represents(p, t1, s)
    ensures Represents(p, t, Patched(p, s, t0, t)) <==> forall path :: Reconciled(p, t0, t1, t, path)
  {
    var r := Patched(p, s, t0, t);
    forall id, meta: Meta ensures IsLive(r, id, meta) <==> Survives(p, t0, t1, t, id, meta) {
      PatchedLive(p, s, t0, t1, t, id, meta);
    }
    forall path
      ensures Reconciled(p, t0, t1, t, path) <==>
              forall id, meta: Meta | meta.relativePath == path ::
                Survives(p, t0, t1, t, id, meta) <==> InFile(p, t, path, id, meta)
    {
      ReconciledIffSurvivorsMatch(p, t0, t1, t, path);
    }
    SurvivorsDecide(p, t0, t1, t, r);
  }

  lemma SurvivorsDecide(p: Project, t0: Tree, t1: Tree, t: Tree, r: Store)
    requires forall id, meta: Meta :: IsLive(r, id, meta) <==> Survives(p, t0, t1, t, id, meta)
    requires forall path :: Reconciled(p, t0, t1, t, path) <==>
               forall id, meta: Meta | meta.relativePath == path ::
                 Survives(p, t0, t1, t, id, meta) <==> InFile(p, t, path, id, meta)
    ensures Represents(p, t, r) <==> forall path :: Reconciled(p, t0, t1, t, path)
  {
    if forall path :: Reconciled(p, t0, t1, t, path) {
      forall id, meta: Meta ensures IsLive(r, id, meta) <==> InFile(p, t, meta.relativePath, id, meta) {
        assert Reconciled(p, t0, t1, t, meta.relativePath);
      }
    }
  }

  /** With the snapshot and the index in step, an incremental run always equals a full
      rebuild, and keeps every invariant of the store. */
  lemma PatchRefinesRebuild(p: Project, s: Store, t0: Tree, t: Tree)
    requires WellBehaved(p) && PlainTree(t0) && PlainTree(t)
    requires Valid(s) && FtsExact(s) && Represents(p, t0, s)
    ensures var r := Patched(p, s, t0, t);
            && Represents(p, t, r) && Valid(r) && FtsExact(r)
            && |r.ids| >= |s.ids|
  {
    forall path ensures Reconciled(p, t0, t0, t, path) {
      if path in t0 && path in t && t0[path] == t[path] {
        assert SameChunks(p, t0, t, path);
      }
    }
    PatchIsRebuildIffReconciled(p, s, t0, t0, t);
    var files := FilesToRemove(Changes(t0, t));
    forall f | f in files ensures Plain(f) {
      FileLists(Changes(t0, t), t0, t, f);
    }
    RepresentedIsOwned(p, t0, s);
    RemovedFiles(p, s, files, "", Meta("", "", "", ""));
    ReindexedBatch(p, t0, t, "", Meta("", "", "", ""));
    var batch := ItemsOf(p, t, FilesToReindex(Changes(t0, t)));
    AddKeepsValid(RemoveAll(s, files, p.name), batch);
    AddKeepsFtsExact(RemoveAll(s, files, p.name), batch);
  }
}
