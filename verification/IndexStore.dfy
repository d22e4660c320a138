/** The stores of one index: append-only vectors, the parallel list of chunk ids with its
    stale slots, metadata pointing into it, and full-text rows shadowing the metadata. */
module IndexStore {
  import opened Wrappers
  import opened FilePaths

  datatype Meta = Meta(relativePath: string, filePath: string, project: string, text: string)

  datatype Entry = Entry(indexId: nat, meta: Meta)

  /** An embedding result, without its vector. */
  datatype Item = Item(id: string, meta: Meta)

  datatype Row = Row(id: string, meta: Meta)

  datatype Store = Store(vectors: nat, ids: seq<string>, metadata: map<string, Entry>, fts: seq<Row>)

  const EMPTY := Store(0, [], map[], [])

  // ---------------------------------------------------------------------------
  // Invariants
  // ---------------------------------------------------------------------------

  /** Each live id's `index_id` is the last position holding that id. */
  ghost predicate PointsToLast(ids: seq<string>, id: string, k: nat) {
    k < |ids| && ids[k] == id && forall j | k < j < |ids| :: ids[j] != id
  }

  ghost predicate Valid(s: Store) {
    && |s.ids| == s.vectors
    && forall id | id in s.metadata :: PointsToLast(s.ids, id, s.metadata[id].indexId)
  }

  predicate RowsDistinct(rows: seq<Row>) {
    forall i, j | 0 <= i < j < |rows| :: rows[i].id != rows[j].id
  }

  ghost predicate HasRow(rows: seq<Row>, id: string, meta: Meta) {
    Row(id, meta) in rows
  }

  /** Exactly one full-text row per live id, carrying its metadata, and none for others. */
  ghost predicate FtsExact(s: Store) {
    && RowsDistinct(s.fts)
    && (forall i | 0 <= i < |s.fts| ::
          s.fts[i].id in s.metadata && s.metadata[s.fts[i].id].meta == s.fts[i].meta)
    && forall id | id in s.metadata :: HasRow(s.fts, id, s.metadata[id].meta)
  }

  function Live(s: Store): map<string, Meta> {
    map id | id in s.metadata :: s.metadata[id].meta
  }

  // ---------------------------------------------------------------------------
  // Operations as functions
  // ---------------------------------------------------------------------------

  function ItemIds(batch: seq<Item>): (r: seq<string>)
    ensures |r| == |batch| && forall i | 0 <= i < |batch| :: r[i] == batch[i].id
  {
    if batch == [] then [] else ItemIds(batch[..|batch| - 1]) + [batch[|batch| - 1].id]
  }

  function BatchIds(batch: seq<Item>): set<string> {
    set i | 0 <= i < |batch| :: batch[i].id
  }

  function RowsOf(batch: seq<Item>): (r: seq<Row>)
    ensures |r| == |batch| && forall i | 0 <= i < |batch| :: r[i] == Row(batch[i].id, batch[i].meta)
  {
    if batch == [] then []
    else RowsOf(batch[..|batch| - 1]) + [Row(batch[|batch| - 1].id, batch[|batch| - 1].meta)]
  }

  /** Metadata after a batch whose first item gets position `start`. */
  function AddMetadata(metadata: map<string, Entry>, start: nat, batch: seq<Item>): map<string, Entry> {
    if batch == [] then metadata
    else
      var last := batch[|batch| - 1];
      AddMetadata(metadata, start, batch[..|batch| - 1])[last.id := Entry(start + |batch| - 1, last.meta)]
  }

  function RowsWithout(rows: seq<Row>, dead: set<string>): (r: seq<Row>)
    ensures forall row :: row in r <==> row in rows && row.id !in dead
    ensures RowsDistinct(rows) ==> RowsDistinct(r)
  {
    if rows == [] then []
    else
      var before := RowsWithout(rows[..|rows| - 1], dead);
      var last := rows[|rows| - 1];
      assert rows == rows[..|rows| - 1] + [last];
      if last.id in dead then before else before + [last]
  }

  /** `add_embeddings`. */
  function Add(s: Store, batch: seq<Item>): Store {
    Store(s.vectors + |batch|,
          s.ids + ItemIds(batch),
          AddMetadata(s.metadata, |s.ids|, batch),
          RowsWithout(s.fts, BatchIds(batch)) + RowsOf(batch))
  }

  predicate BelongsTo(meta: Meta, file: string, project: string) {
    && (meta.relativePath != "" || meta.filePath != "")
    && RefersToSameFile(file, meta.relativePath, meta.filePath)
    && (project == "" || meta.project == project)
  }

  function Doomed(s: Store, file: string, project: string): set<string> {
    set id | id in s.ids && id in s.metadata && BelongsTo(s.metadata[id].meta, file, project)
  }

  /** `remove_file_chunks`: the vectors and the list keep their dead slots. */
  function Remove(s: Store, file: string, project: string): Store {
    var dead := Doomed(s, file, project);
    s.(metadata := s.metadata - dead, fts := RowsWithout(s.fts, dead))
  }

  predicate DistinctIds(batch: seq<Item>) {
    Distinct(ItemIds(batch))
  }

  // ---------------------------------------------------------------------------
  // Adding and removing keep the invariants
  // ---------------------------------------------------------------------------

  /** The last position of `id` in the batch. */
  function LastIndex(batch: seq<Item>, id: string): (r: Option<nat>)
    ensures r.Some? ==> r.value < |batch| && batch[r.value].id == id
                        && forall j | r.value < j < |batch| :: batch[j].id != id
    ensures r.None? ==> forall j | 0 <= j < |batch| :: batch[j].id != id
  {
    if batch == [] then None
    else if batch[|batch| - 1].id == id then Some(|batch| - 1)
    else LastIndex(batch[..|batch| - 1], id)
  }

  lemma {:induction false} AddMetadataLookup(metadata: map<string, Entry>, start: nat, batch: seq<Item>, id: string)
    ensures var m := AddMetadata(metadata, start, batch);
            match LastIndex(batch, id)
            case Some(i) => id in m && m[id] == Entry(start + i, batch[i].meta)
            case None => (id in m <==> id in metadata) && (id in m ==> m[id] == metadata[id])
  {
    if batch != [] {
      AddMetadataLookup(metadata, start, batch[..|batch| - 1], id);
    }
  }

  lemma BatchIdsAreIndexed(batch: seq<Item>, id: string)
    ensures id in BatchIds(batch) <==> LastIndex(batch, id).Some?
  {
  }

  lemma AddKeepsValid(s: Store, batch: seq<Item>)
    requires Valid(s)
    ensures Valid(Add(s, batch))
  {
    var t := Add(s, batch);
    forall id | id in t.metadata ensures PointsToLast(t.ids, id, t.metadata[id].indexId) {
      AddMetadataLookup(s.metadata, |s.ids|, batch, id);
      forall j | |s.ids| <= j < |t.ids| ensures t.ids[j] == batch[j - |s.ids|].id {
      }
      if LastIndex(batch, id).None? {
        assert PointsToLast(s.ids, id, s.metadata[id].indexId);
      }
    }
  }

  /** What a batch makes live: its items win over older entries, and the last one of an
      id over earlier ones. */
  lemma LiveAfterAdd(s: Store, batch: seq<Item>, id: string)
    ensures var live := Live(Add(s, batch));
            match LastIndex(batch, id)
            case Some(i) => id in live && live[id] == batch[i].meta
            case None => (id in live <==> id in Live(s)) && (id in live ==> live[id] == Live(s)[id])
  {
    AddMetadataLookup(s.metadata, |s.ids|, batch, id);
  }

  lemma DistinctIndex(batch: seq<Item>, i: nat)
    requires DistinctIds(batch) && i < |batch|
    ensures LastIndex(batch, batch[i].id) == Some(i)
  {
  }

  /** Full-text rows stay exact when the ids of the batch are distinct. */
  lemma AddKeepsFtsExact(s: Store, batch: seq<Item>)
    requires FtsExact(s) && DistinctIds(batch)
    ensures FtsExact(Add(s, batch))
  {
    hide AddMetadata, RowsDistinct, DistinctIds, Distinct;
    var t, kept := Add(s, batch), RowsWithout(s.fts, BatchIds(batch));
    ReplacedRowsDistinct(s.fts, batch);
    forall i | 0 <= i < |t.fts|
      ensures t.fts[i].id in t.metadata && t.metadata[t.fts[i].id].meta == t.fts[i].meta
    {
      LiveAfterAdd(s, batch, t.fts[i].id);
      BatchIdsAreIndexed(batch, t.fts[i].id);
      if i < |kept| {
        assert t.fts[i] in kept && kept[i] in s.fts;
      } else {
        DistinctIndex(batch, i - |kept|);
      }
    }
    forall id | id in t.metadata ensures HasRow(t.fts, id, t.metadata[id].meta) {
      LiveAfterAdd(s, batch, id);
      BatchIdsAreIndexed(batch, id);
      match LastIndex(batch, id)
      case Some(i) => assert t.fts[|kept| + i] == Row(id, batch[i].meta);
      case None => assert HasRow(s.fts, id, s.metadata[id].meta) && Row(id, s.metadata[id].meta) in kept;
    }
  }

  lemma ReplacedRowsDistinct(rows: seq<Row>, batch: seq<Item>)
    requires RowsDistinct(rows) && DistinctIds(batch)
    ensures RowsDistinct(RowsWithout(rows, BatchIds(batch)) + RowsOf(batch))
  {
    var kept := RowsWithout(rows, BatchIds(batch));
    var all := kept + RowsOf(batch);
    forall i, j | 0 <= i < j < |all| ensures all[i].id != all[j].id {
      if i < |kept| <= j {
        assert kept[i] in kept && batch[j - |kept|].id in BatchIds(batch);
      } else if i >= |kept| {
        assert ItemIds(batch)[i - |kept|] != ItemIds(batch)[j - |kept|];
      }
    }
  }

  /** And they stay exact only then: a batch naming an id twice leaves two rows for it. */
  lemma RepeatedIdBreaksFts(s: Store, batch: seq<Item>)
    ensures RowsDistinct(Add(s, batch).fts) ==> DistinctIds(batch)
  {
    var kept := RowsWithout(s.fts, BatchIds(batch));
    if RowsDistinct(Add(s, batch).fts) {
      forall i, j | 0 <= i < j < |batch| ensures batch[i].id != batch[j].id {
        assert Add(s, batch).fts[|kept| + i] == RowsOf(batch)[i];
        assert Add(s, batch).fts[|kept| + j] == RowsOf(batch)[j];
      }
    }
  }

  /** Removing a file drops exactly its live chunks, in every store but the append-only
      ones, and keeps both invariants. */
  lemma RemoveFacts(s: Store, file: string, project: string)
    requires Valid(s)
    ensures var t := Remove(s, file, project);
            && Valid(t)
            && (FtsExact(s) ==> FtsExact(t))
            && t.ids == s.ids && t.vectors == s.vectors
            && Live(t) == map id | id in Live(s) && !BelongsTo(Live(s)[id], file, project) :: Live(s)[id]
  {
    var t := Remove(s, file, project);
    assert forall id | id in s.metadata :: id in s.ids;
    if FtsExact(s) {
      forall i | 0 <= i < |t.fts|
        ensures t.fts[i].id in t.metadata && t.metadata[t.fts[i].id].meta == t.fts[i].meta
      {
        assert t.fts[i] in s.fts;
      }
      forall id | id in t.metadata ensures HasRow(t.fts, id, t.metadata[id].meta) {
        assert HasRow(s.fts, id, s.metadata[id].meta);
      }
    }
  }

  /** Which chunks a removal takes: those of the file, and of one project only when a project is named.  The same
      path in another project is spared. */
  lemma RemovalByProject(s: Store, file: string, project: string, id: string)
    requires Valid(s) && id in Live(s)
    ensures Live(s)[id].relativePath == "" && Live(s)[id].filePath == "" ==> id in Live(Remove(s, file, project))
    ensures (Live(s)[id].relativePath != "" || Live(s)[id].filePath != "")
            && (project == "" || project == Live(s)[id].project) ==>
              (id in Live(Remove(s, file, project)) <==>
                 !RefersToSameFile(file, Live(s)[id].relativePath, Live(s)[id].filePath))
    ensures project != "" && project != Live(s)[id].project ==> id in Live(Remove(s, file, project))
  {
    RemoveFacts(s, file, project);
  }

  // ---------------------------------------------------------------------------
  // Every history
  // ---------------------------------------------------------------------------

  datatype Op = AddBatch(batch: seq<Item>) | RemoveFile(file: string, project: string) | Reset

  function Apply(s: Store, op: Op): Store {
    match op
    case AddBatch(batch) => Add(s, batch)
    case RemoveFile(file, project) => Remove(s, file, project)
    case Reset => EMPTY
  }

  function Run(ops: seq<Op>): Store {
    if ops == [] then EMPTY else Apply(Run(ops[..|ops| - 1]), ops[|ops| - 1])
  }

  /** After any history the store is valid; with distinct ids in every batch the full-text
      rows are exact as well. */
  lemma {:induction false} HistoryKeepsInvariants(ops: seq<Op>)
    ensures Valid(Run(ops))
    ensures (forall i | 0 <= i < |ops| && ops[i].AddBatch? :: DistinctIds(ops[i].batch)) ==> FtsExact(Run(ops))
  {
    if ops != [] {
      var before := ops[..|ops| - 1];
      HistoryKeepsInvariants(before);
      match ops[|ops| - 1] {
        case AddBatch(batch) =>
          AddKeepsValid(Run(before), batch);
          if (forall i | 0 <= i < |ops| && ops[i].AddBatch? :: DistinctIds(ops[i].batch)) {
            AddKeepsFtsExact(Run(before), batch);
          }
        case RemoveFile(file, project) =>
          RemoveFacts(Run(before), file, project);
        case Reset =>
      }
    }
  }

  // ---------------------------------------------------------------------------
  // Stale slots
  // ---------------------------------------------------------------------------

  predicate IsLiveSlot(s: Store, k: nat)
    requires k < |s.ids|
  {
    s.ids[k] in s.metadata && s.metadata[s.ids[k]].indexId == k
  }

  function LiveSlots(s: Store): set<nat> {
    set k: nat | k < |s.ids| && IsLiveSlot(s, k)
  }

  function StaleSlots(s: Store): set<nat> {
    set k: nat | k < |s.ids| && !IsLiveSlot(s, k)
  }

  function UpTo(n: nat): (r: set<nat>)
    ensures |r| == n && forall k: nat :: k in r <==> k < n
  {
    if n == 0 then {} else UpTo(n - 1) + {n - 1}
  }

  /** One slot per id of `keys`. */
  lemma {:induction false} SlotsOfKeys(s: Store, keys: set<string>)
    requires Valid(s) && keys <= s.metadata.Keys
    ensures |set id | id in keys :: s.metadata[id].indexId| == |keys|
  {
    var slots := set id | id in keys :: s.metadata[id].indexId;
    if keys == {} {
      assert slots == {};
    } else {
      var id :| id in keys;
      var rest := keys - {id};
      SlotsOfKeys(s, rest);
      var restSlots := set other | other in rest :: s.metadata[other].indexId;
      forall other | other in rest ensures s.metadata[other].indexId != s.metadata[id].indexId {
        assert PointsToLast(s.ids, other, s.metadata[other].indexId) && PointsToLast(s.ids, id, s.metadata[id].indexId);
      }
      assert slots == restSlots + {s.metadata[id].indexId};
    }
  }

  /** The live count never exceeds the vector count, and the difference is exactly the
      number of stale slots. */
  lemma StaleCount(s: Store)
    requires Valid(s)
    ensures |s.metadata| <= s.vectors
    ensures s.vectors - |s.metadata| == |StaleSlots(s)|
  {
    SlotsOfKeys(s, s.metadata.Keys);
    var slots := set id | id in s.metadata.Keys :: s.metadata[id].indexId;
    forall id | id in s.metadata ensures PointsToLast(s.ids, id, s.metadata[id].indexId) {
    }
    assert LiveSlots(s) == slots;
    assert UpTo(|s.ids|) == LiveSlots(s) + StaleSlots(s);
  }

  /** `stale_ratio`, unknown for an empty index. */
  function StaleRatio(s: Store): Option<real> {
    if s.vectors == 0 then None
    else
      var live := |s.metadata|;
      var stale := if s.vectors > live then s.vectors - live else 0;
      Some(stale as real / (if live > 1 then live else 1) as real)
  }

  /** Nothing is stale exactly when the ratio is zero. */
  lemma RatioMeasuresStaleness(s: Store)
    requires Valid(s) && s.vectors > 0
    ensures StaleRatio(s).value == 0.0 <==> StaleSlots(s) == {}
    ensures StaleRatio(s).value > 0.5 <==> 2 * |StaleSlots(s)| > (if |s.metadata| > 1 then |s.metadata| else 1)
  {
    StaleCount(s);
    RatioFacts(|StaleSlots(s)|, if |s.metadata| > 1 then |s.metadata| else 1);
  }

  lemma RatioFacts(stale: nat, live: nat)
    requires live > 0
    ensures stale as real / live as real == 0.0 <==> stale == 0
    ensures stale as real / live as real > 0.5 <==> 2 * stale > live
  {
    RealRatio(stale as real / live as real, live as real, stale as real);
    assert 2.0 * stale as real == (2 * stale) as real;
  }

  lemma RealRatio(q: real, l: real, x: real)
    requires l > 0.0 && q * l == x
    ensures q == 0.0 <==> x == 0.0
    ensures q > 0.5 <==> 2.0 * x > l
  {
    var d := q - 0.5;
    assert d * l == x - 0.5 * l;
    if d > 0.0 {
      assert d * l > 0.0;
    } else {
      assert d * l <= 0.0;
    }
  }

  // ---------------------------------------------------------------------------
  // Rebuilding the list of ids
  // ---------------------------------------------------------------------------

  /** Every slot below `n` is named by some entry. */
  ghost predicate EverySlotNamed(metadata: map<string, Entry>, n: nat) {
    forall k: nat | k < n :: SlotNamed(metadata, k)
  }

  ghost predicate SlotNamed(metadata: map<string, Entry>, k: nat) {
    exists id :: id in metadata && metadata[id].indexId == k
  }

  /** Each position of `ids` holds an id whose entry names that position. */
  ghost predicate AgreesWith(ids: seq<string>, metadata: map<string, Entry>) {
    forall k | 0 <= k < |ids| :: ids[k] in metadata && metadata[ids[k]].indexId == k
  }

  /** For a valid store every slot is named exactly when nothing is stale, and then the
      only list that agrees with the metadata is the original one. */
  lemma RebuildIsLossless(s: Store)
    requires Valid(s)
    ensures EverySlotNamed(s.metadata, s.vectors) <==> StaleSlots(s) == {}
    ensures forall ids | |ids| == s.vectors && AgreesWith(ids, s.metadata) :: ids == s.ids
  {
    forall ids | |ids| == s.vectors && AgreesWith(ids, s.metadata) ensures ids == s.ids {
      forall k | 0 <= k < |ids| ensures ids[k] == s.ids[k] {
        assert PointsToLast(s.ids, ids[k], s.metadata[ids[k]].indexId);
      }
    }
    if EverySlotNamed(s.metadata, s.vectors) {
      forall k: nat | k < |s.ids| ensures IsLiveSlot(s, k) {
        assert SlotNamed(s.metadata, k);
        var id :| id in s.metadata && s.metadata[id].indexId == k;
        assert PointsToLast(s.ids, id, k);
      }
    }
    if StaleSlots(s) == {} {
      forall k: nat | k < s.vectors ensures SlotNamed(s.metadata, k) {
        assert k !in StaleSlots(s);
        assert IsLiveSlot(s, k);
      }
    }
  }

  // ---------------------------------------------------------------------------
  // The stores, updated in place
  // ---------------------------------------------------------------------------

  class IndexStores {
    var vectors: nat
    var ids: seq<string>
    var metadata: map<string, Entry>
    var fts: seq<Row>

    constructor ()
      ensures View() == EMPTY
    {
      vectors, ids, metadata, fts := 0, [], map[], [];
    }

    function View(): Store
      reads this
    {
      Store(vectors, ids, metadata, fts)
    }

    /** The metadata half of `add_embeddings`. */
    method AppendItems(batch: seq<Item>)
      modifies this`ids, this`metadata
      ensures ids == old(ids) + ItemIds(batch)
      ensures metadata == AddMetadata(old(metadata), |old(ids)|, batch)
    {
      var start := |ids|;
      for i := 0 to |batch|
        invariant ids == old(ids) + ItemIds(batch[..i])
        invariant metadata == AddMetadata(old(metadata), start, batch[..i])
      {
        assert batch[..i + 1][..i] == batch[..i];
        ids := ids + [batch[i].id];
        metadata := metadata[batch[i].id := Entry(start + i, batch[i].meta)];
      }
      assert batch[..|batch|] == batch;
    }

    /** The full-text half: drop the rows of the incoming ids, insert the new ones. */
    method ReplaceRows(batch: seq<Item>)
      modifies this`fts
      ensures fts == RowsWithout(old(fts), BatchIds(batch)) + RowsOf(batch)
    {
      fts := RowsWithout(fts, set id | id in ItemIds(batch));
      assert (set id | id in ItemIds(batch)) == BatchIds(batch);
      ghost var kept := fts;
      for i := 0 to |batch|
        invariant fts == kept + RowsOf(batch[..i])
      {
        assert batch[..i + 1][..i] == batch[..i];
        fts := fts + [Row(batch[i].id, batch[i].meta)];
      }
      assert batch[..|batch|] == batch;
    }

    /** `add_embeddings`: vectors first, then ids and metadata item by item, then the
        full-text rows of the incoming ids are replaced. */
    method AddEmbeddings(batch: seq<Item>)
      modifies this
      ensures View() == Add(old(View()), batch)
    {
      if batch == [] {
        NothingDead(fts, BatchIds(batch));
        return;
      }
      vectors := vectors + |batch|;
      AppendItems(batch);
      ReplaceRows(batch);
    }

    /** The search half of `remove_file_chunks`: each id is looked at once. */
    method FindFileChunks(file: string, project: string) returns (found: seq<string>)
      ensures forall id :: id in found <==> id in Doomed(View(), file, project)
      ensures |found| == |Doomed(View(), file, project)|
    {
      found := [];
      var seen: set<string> := {};
      ghost var dead: set<string> := {};
      for i := 0 to |ids|
        invariant forall id :: id in seen <==> id in ids[..i]
        invariant forall id :: id in dead <==>
          id in ids[..i] && id in metadata && BelongsTo(metadata[id].meta, file, project)
        invariant forall id :: id in found <==> id in dead
        invariant |found| == |dead|
      {
        var id := ids[i];
        assert ids[..i + 1] == ids[..i] + [id];
        if id !in seen {
          seen := seen + {id};
          if id in metadata && BelongsTo(metadata[id].meta, file, project) {
            found := found + [id];
            dead := dead + {id};
          }
        }
      }
      assert ids[..|ids|] == ids;
      assert dead == Doomed(View(), file, project);
    }

    /** `remove_file_chunks`: delete the metadata id by id, then the full-text rows. */
    method RemoveFileChunks(file: string, project: string) returns (removed: nat)
      modifies this`metadata, this`fts
      ensures View() == Remove(old(View()), file, project)
      ensures removed == |Doomed(old(View()), file, project)|
    {
      var found := FindFileChunks(file, project);
      for i := 0 to |found|
        invariant fts == old(fts)
        invariant metadata == old(metadata) - (set id | id in found[..i])
      {
        assert found[..i + 1] == found[..i] + [found[i]];
        metadata := metadata - {found[i]};
      }
      assert found[..|found|] == found;
      var dead := set id | id in found;
      assert dead == Doomed(old(View()), file, project);
      fts := RowsWithout(fts, dead);
      removed := |found|;
    }

    /** The filling loop of the rebuild, over the metadata rows in whatever order. */
    method FillSlots() returns (rebuilt: seq<Option<string>>, filled: nat)
      ensures |rebuilt| == vectors
      ensures forall k | 0 <= k < vectors :: rebuilt[k].Some? <==> SlotNamed(metadata, k)
      ensures forall k | 0 <= k < vectors && rebuilt[k].Some? ::
                rebuilt[k].value in metadata && metadata[rebuilt[k].value].indexId == k
      ensures filled <= vectors && (filled == vectors <==> EverySlotNamed(metadata, vectors))
    {
      rebuilt := seq(vectors, _ => None);
      ghost var slots: set<nat> := {};
      filled := 0;
      var rows := metadata.Keys;
      while rows != {}
        invariant rows <= metadata.Keys && |rebuilt| == vectors && filled == |slots|
        invariant forall k: nat :: k in slots <==> k < vectors && rebuilt[k].Some?
        invariant forall k | 0 <= k < vectors && rebuilt[k].Some? ::
                    rebuilt[k].value in metadata && metadata[rebuilt[k].value].indexId == k
        invariant forall id | id in metadata && id !in rows && metadata[id].indexId < vectors ::
                    rebuilt[metadata[id].indexId].Some?
      {
        var id :| id in rows;
        var k := metadata[id].indexId;
        if k < vectors && rebuilt[k].None? {
          rebuilt := rebuilt[k := Some(id)];
          slots := slots + {k};
          filled := filled + 1;
        }
        rows := rows - {id};
      }
      forall k: nat | k < vectors ensures k in slots <==> SlotNamed(metadata, k) {
      }
      FilledMeansNamed(metadata, vectors, slots);
    }

    /** `_maybe_rebuild_chunk_ids`: fill the slots the metadata names and keep the result
        only if no slot is missing.  A damaged list of a once valid store `s` comes back
        exactly when nothing is stale. */
    method MaybeRebuildChunkIds(metadataPresent: bool, ghost s: Store)
      modifies this`ids
      ensures Valid(s) && s.metadata == metadata && s.vectors == vectors &&
              metadataPresent && |old(ids)| != vectors && vectors != 0 ==>
                ids == if StaleSlots(s) == {} then s.ids else old(ids)
      ensures |old(ids)| == vectors || vectors == 0 || !metadataPresent ==> ids == old(ids)
      ensures |old(ids)| != vectors && vectors != 0 && metadataPresent ==>
                if EverySlotNamed(metadata, vectors) then |ids| == vectors && AgreesWith(ids, metadata)
                else ids == old(ids)
    {
      if vectors == 0 || |ids| == vectors || !metadataPresent {
        return;
      }
      if Valid(s) && s.metadata == metadata && s.vectors == vectors {
        RebuildIsLossless(s);
      }
      var rebuilt, filled := FillSlots();
      if filled < vectors {
        return;
      }
      assert forall k: nat | k < vectors :: SlotNamed(metadata, k);
      ids := seq(vectors, k requires 0 <= k < |rebuilt| && rebuilt[k].Some? => rebuilt[k].value);
    }
  }

  lemma {:induction false} NothingDead(rows: seq<Row>, dead: set<string>)
    requires dead == {}
    ensures RowsWithout(rows, dead) == rows
  {
    hide RowsDistinct;
    if rows != [] {
      NothingDead(rows[..|rows| - 1], dead);
      assert rows == rows[..|rows| - 1] + [rows[|rows| - 1]];
    }
  }

  /** The count of filled slots tells whether every slot is named. */
  lemma FilledMeansNamed(metadata: map<string, Entry>, n: nat, slots: set<nat>)
    requires forall k | k in slots :: k < n
    requires forall k: nat | k < n :: k in slots <==> SlotNamed(metadata, k)
    ensures |slots| <= n && (|slots| == n <==> EverySlotNamed(metadata, n))
  {
    assert slots <= UpTo(n);
    SubsetSize(slots, UpTo(n));
    if EverySlotNamed(metadata, n) {
      assert slots == UpTo(n);
    }
    if |slots| == n {
      SubsetOfFullSize(slots, UpTo(n));
      assert forall k: nat | k < n :: k in UpTo(n);
    }
  }

  lemma SubsetSize(a: set<nat>, b: set<nat>)
    requires a <= b
    ensures |a| <= |b|
  {
    assert b == a + (b - a);
  }

  lemma {:induction false} SubsetOfFullSize(a: set<nat>, b: set<nat>)
    requires a <= b && |a| >= |b|
    ensures a == b
  {
    if a != {} {
      var x :| x in a;
      SubsetOfFullSize(a - {x}, b - {x});
    }
  }
}
