/** The content-addressed cache in front of document encoding. Embedders of different provider,
    model, input mode and output dimension share one table, and the dimension is not part of
    the key. */
module DocumentCache {
  import opened Wrappers

  type Component(==, !new)
  type Vector = seq<Component>
  type Digest(==, !new)

  const MAX_ROWS: nat := 200000
  const LOOKUP_BATCH: nat := 500

  /** Where the rows of an embedder are kept. */
  datatype Namespace = Namespace(provider: string, model: string, inputMode: string)

  /** What decides, with the dimension asked for, how a text is encoded. */
  datatype Model = Model(provider: string, name: string, inputType: bool) {
    function Space(): Namespace {
      Namespace(provider, name, if inputType then "document+it" else "document")
    }
  }

  datatype Config = Config(model: Model, dimension: Option<nat>) {
    function Space(): Namespace {
      model.Space()
    }
  }

  /** Embedders that encode differently never share a row: the key tells provider, model and input mode apart. */
  lemma SpaceSeparates(a: Model, b: Model)
    ensures a.Space() == b.Space() <==> a == b
  {
    assert "document+it" != "document" by {
      assert |"document+it"| != |"document"|;
    }
  }

  datatype Key = Key(sha: Digest, space: Namespace)

  datatype Row = Row(vector: Vector, dim: nat, createdAt: int)

  type Table = map<Key, Row>

  /** The models behind the embedders: what each makes of a text, in its input mode, when it is asked for
      a dimension. Nothing says that the vector has that dimension. */
  type Encoder = (Model, nat, string) -> Vector

  datatype EncodeError = EncodeFailed | WrongDimension | DimensionUnresolved

  /** What goes wrong around one call: the cache cannot be opened or read, the encoder fails, only some
      rows are written, eviction fails. */
  datatype Faults = Faults(noCache: bool, readFails: bool, encodeFails: bool, written: Option<nat>, evictFails: bool)

  const NO_FAULTS := Faults(false, false, false, None, false)

  ghost predicate Injective(hash: string -> Digest) {
    forall x, y | hash(x) == hash(y) :: x == y
  }

  // ---------------------------------------------------------------------------
  // What a call should return
  // ---------------------------------------------------------------------------

  function EncodeAll(enc: Encoder, model: Model, dim: nat, texts: seq<string>): (vs: seq<Vector>)
    ensures |vs| == |texts| && forall i | 0 <= i < |texts| :: vs[i] == enc(model, dim, texts[i])
  {
    seq(|texts|, i requires 0 <= i < |texts| => enc(model, dim, texts[i]))
  }

  /** Encoding `texts` for `config`, with the dimension check that follows it. */
  function Encoded(enc: Encoder, config: Config, texts: seq<string>, fails: bool): Result<seq<Vector>, EncodeError> {
    if fails then Failure(EncodeFailed)
    else if config.dimension.None? then Failure(DimensionUnresolved)
    else
      var vs := EncodeAll(enc, config.model, config.dimension.value, texts);
      if exists i :: 0 <= i < |vs| && |vs[i]| != config.dimension.value then Failure(WrongDimension) else Success(vs)
  }

  // ---------------------------------------------------------------------------
  // The table
  // ---------------------------------------------------------------------------

  /** A row holds what the models of its namespace make of its text at the row's own dimension. */
  ghost predicate SoundRow(hash: string -> Digest, enc: Encoder, key: Key, row: Row) {
    && |row.vector| == row.dim
    && forall text, model: Model | hash(text) == key.sha && model.Space() == key.space ::
         row.vector == enc(model, row.dim, text)
  }

  ghost predicate Sound(hash: string -> Digest, enc: Encoder, table: Table) {
    forall key | key in table :: SoundRow(hash, enc, key, table[key])
  }

  /** A row can serve `config` when it is under its key and has its dimension. */
  predicate Hit(table: Table, key: Key, dim: Option<nat>) {
    key in table && |table[key].vector| == table[key].dim && dim == Some(table[key].dim)
  }

  /** `after` is `before` without its oldest rows, down to the cap. */
  ghost predicate Evicted(before: Table, after: Table) {
    && after.Keys <= before.Keys
    && (forall key | key in after :: after[key] == before[key])
    && |after| == (if |before| > MAX_ROWS then MAX_ROWS else |before|)
    && forall gone, kept | gone in before && gone !in after && kept in after ::
         before[gone].createdAt <= before[kept].createdAt
  }

  lemma EvictionKeepsSound(hash: string -> Digest, enc: Encoder, before: Table, after: Table)
    requires Sound(hash, enc, before) && after.Keys <= before.Keys
    requires forall key | key in after :: after[key] == before[key]
    ensures Sound(hash, enc, after)
  {
  }

  lemma {:induction false} OldestRow(table: Table, keys: set<Key>) returns (oldest: Key)
    requires keys <= table.Keys && keys != {}
    ensures oldest in keys && forall key | key in keys :: table[oldest].createdAt <= table[key].createdAt
    decreases |keys|
  {
    oldest :| oldest in keys;
    if keys != {oldest} {
      assert keys - {oldest} != {};
      var other := OldestRow(table, keys - {oldest});
      if table[other].createdAt < table[oldest].createdAt {
        oldest := other;
      }
    }
  }

  /** Oldest rows first, until the cap holds. */
  method Evict(table: Table) returns (kept: Table)
    ensures Evicted(table, kept)
  {
    kept := table;
    while |kept| > MAX_ROWS
      invariant kept.Keys <= table.Keys && |kept| >= (if |table| > MAX_ROWS then MAX_ROWS else |table|)
      invariant forall key | key in kept :: kept[key] == table[key]
      invariant forall gone, left | gone in table && gone !in kept && left in kept ::
        table[gone].createdAt <= table[left].createdAt
      invariant |table| <= MAX_ROWS ==> kept == table
    {
      ghost var oldest := OldestRow(kept, kept.Keys);
      var victim :| victim in kept && forall key | key in kept :: kept[victim].createdAt <= kept[key].createdAt;
      ghost var before := kept;
      kept := kept - {victim};
      assert kept.Keys == before.Keys - {victim};
      assert |kept| == |kept.Keys| && |before| == |before.Keys|;
    }
  }

  // ---------------------------------------------------------------------------
  // Writing
  // ---------------------------------------------------------------------------

  /** `table` after inserting or replacing one row per text. */
  function WithRows(hash: string -> Digest, table: Table, space: Namespace, texts: seq<string>, vs: seq<Vector>,
                    now: int): Table
    requires |texts| == |vs|
  {
    if texts == [] then table
    else
      var n := |texts| - 1;
      WithRows(hash, table, space, texts[..n], vs[..n], now)[Key(hash(texts[n]), space) := Row(vs[n], |vs[n]|, now)]
  }

  /** Writing encodings keeps the table sound, whatever dimension the replaced rows had. */
  lemma {:induction false} WritingKeepsSound(hash: string -> Digest, enc: Encoder, table: Table, config: Config,
                                             texts: seq<string>, now: int)
    requires Injective(hash) && Sound(hash, enc, table) && config.dimension.Some?
    requires Encoded(enc, config, texts, false).Success?
    ensures
      Sound(hash, enc, WithRows(hash, table, config.Space(), texts, Encoded(enc, config, texts, false).value, now))
  {
    if texts != [] {
      var n := |texts| - 1;
      EncodedPrefix(enc, config, texts, n);
      WritingKeepsSound(hash, enc, table, config, texts[..n], now);
      var v := enc(config.model, config.dimension.value, texts[n]);
      assert SoundRow(hash, enc, Key(hash(texts[n]), config.Space()), Row(v, |v|, now)) by {
        EncodedEntry(enc, config, texts, n);
        forall model: Model | model.Space() == config.Space() ensures model == config.model {
          SpaceSeparates(model, config.model);
        }
      }
    }
  }

  /** Exactly the rows of the texts are replaced, by rows that are dated now. */
  lemma {:induction false} RowsAfterWriting(hash: string -> Digest, table: Table, space: Namespace,
                                            texts: seq<string>, vs: seq<Vector>, now: int, key: Key)
    requires |texts| == |vs|
    ensures var after := WithRows(hash, table, space, texts, vs, now);
            if key.space == space && exists i :: 0 <= i < |texts| && hash(texts[i]) == key.sha then
              key in after && after[key].createdAt == now && after[key].dim == |after[key].vector|
              && exists i :: 0 <= i < |texts| && hash(texts[i]) == key.sha && vs[i] == after[key].vector
            else
              (key in after <==> key in table) && (key in table ==> after[key] == table[key])
  {
    if texts != [] {
      var n := |texts| - 1;
      RowsAfterWriting(hash, table, space, texts[..n], vs[..n], now, key);
    }
  }

  lemma EncodedEntry(enc: Encoder, config: Config, texts: seq<string>, i: nat)
    requires Encoded(enc, config, texts, false).Success? && i < |texts|
    ensures var vs := Encoded(enc, config, texts, false).value;
            |vs| == |texts| && vs[i] == enc(config.model, config.dimension.value, texts[i])
            && |vs[i]| == config.dimension.value
  {
    var vs := EncodeAll(enc, config.model, config.dimension.value, texts);
    assert 0 <= i < |vs|;
  }

  lemma EncodedPrefix(enc: Encoder, config: Config, texts: seq<string>, n: nat)
    requires Encoded(enc, config, texts, false).Success? && n <= |texts|
    ensures Encoded(enc, config, texts[..n], false) == Success(Encoded(enc, config, texts, false).value[..n])
  {
    var all, some := EncodeAll(enc, config.model, config.dimension.value, texts),
                     EncodeAll(enc, config.model, config.dimension.value, texts[..n]);
    forall i | 0 <= i < |some| ensures some[i] == all[i] && |some[i]| == config.dimension.value {
      EncodedEntry(enc, config, texts, i);
    }
    assert some == all[..n];
  }

  /** After the rows are written, the texts written are served, and so is everything served before. */
  lemma {:induction false} WrittenRowsHit(hash: string -> Digest, table: Table, space: Namespace,
                                          texts: seq<string>, vs: seq<Vector>, now: int, dim: nat, text: string)
    requires |texts| == |vs| && forall i | 0 <= i < |vs| :: |vs[i]| == dim
    requires text in texts || Hit(table, Key(hash(text), space), Some(dim))
    ensures Hit(WithRows(hash, table, space, texts, vs, now), Key(hash(text), space), Some(dim))
  {
    if texts != [] {
      var n := |texts| - 1;
      if hash(texts[n]) != hash(text) {
        assert text in texts ==> text in texts[..n];
        WrittenRowsHit(hash, table, space, texts[..n], vs[..n], now, dim, text);
      }
    }
  }

  function Written(faults: Faults, n: nat): (count: nat)
    ensures count <= n
  {
    if faults.written.Some? && faults.written.value < n then faults.written.value else n
  }

  /** The table after a call that encoded `encoded`: the rows written, and then the oldest
      rows gone if the cap was passed and nothing failed. */
  ghost predicate Settled(hash: string -> Digest, before: Table, after: Table, enc: Encoder, config: Config,
                          encoded: seq<string>, now: int, faults: Faults) {
    if encoded == [] then after == before
    else
      && Encoded(enc, config, encoded, false).Success?
      && var vs := Encoded(enc, config, encoded, false).value;
         var count := Written(faults, |encoded|);
         && |vs| == |encoded|
         && var stored := WithRows(hash, before, config.Space(), encoded[..count], vs[..count], now);
            if faults.written.None? && !faults.evictFails then Evicted(stored, after) else after == stored
  }

  /** Every text has its own encoding in `found`. */
  ghost predicate Complete(hash: string -> Digest, enc: Encoder, config: Config, contents: seq<string>,
                           found: map<Digest, Vector>) {
    forall text | text in contents ::
      && hash(text) in found && config.dimension.Some?
      && found[hash(text)] == enc(config.model, config.dimension.value, text)
      && |found[hash(text)]| == config.dimension.value
  }

  lemma FoundIsComplete(hash: string -> Digest, enc: Encoder, rows: Table, config: Config, contents: seq<string>,
                        hits: map<Digest, Vector>, encoded: seq<string>, all: map<Digest, Vector>)
    requires Injective(hash) && Sound(hash, enc, rows)
    requires forall sha | sha in hits ::
      Hit(rows, Key(sha, config.Space()), config.dimension) && hits[sha] == rows[Key(sha, config.Space())].vector
    requires forall text | text in contents :: text in encoded || hash(text) in hits
    requires forall sha | sha in hits :: sha in all && all[sha] == hits[sha]
    requires encoded != [] ==> Encoded(enc, config, encoded, false).Success?
    requires forall i | 0 <= i < |encoded| ::
      hash(encoded[i]) in all &&
      all[hash(encoded[i])] == EncodeAll(enc, config.model, config.dimension.value, encoded)[i]
    ensures Complete(hash, enc, config, contents, all)
  {
    forall text | text in contents
      ensures hash(text) in all && config.dimension.Some?
      ensures all[hash(text)] == enc(config.model, config.dimension.value, text)
      ensures |all[hash(text)]| == config.dimension.value
    {
      if text in encoded {
        var i :| 0 <= i < |encoded| && encoded[i] == text;
        EncodedEntry(enc, config, encoded, i);
      } else {
        var key := Key(hash(text), config.Space());
        assert SoundRow(hash, enc, key, rows[key]);
      }
    }
  }

  /** The vectors of the texts, in order. */
  function Picked(hash: string -> Digest, found: map<Digest, Vector>, contents: seq<string>): (vs: seq<Vector>)
    requires forall text | text in contents :: hash(text) in found
    ensures |vs| == |contents| && forall i | 0 <= i < |contents| :: vs[i] == found[hash(contents[i])]
  {
    seq(|contents|, i requires 0 <= i < |contents| => found[hash(contents[i])])
  }

  lemma CompleteIsEncoded(hash: string -> Digest, enc: Encoder, config: Config, contents: seq<string>,
                          found: map<Digest, Vector>)
    requires Complete(hash, enc, config, contents, found)
    ensures contents != [] ==>
      Encoded(enc, config, contents, false)
      == Success(Picked(hash, found, contents))
  {
    if contents != [] {
      assert contents[0] in contents;
      var vs := EncodeAll(enc, config.model, config.dimension.value, contents);
      forall i | 0 <= i < |contents| ensures hash(contents[i]) in found && vs[i] == found[hash(contents[i])] {
        assert contents[i] in contents;
      }
      assert vs == Picked(hash, found, contents);
    }
  }

  lemma EvictionBelowCap(before: Table, after: Table)
    requires Evicted(before, after) && |after| < MAX_ROWS
    ensures after == before
  {
    assert |after| == |after.Keys| && |before| == |before.Keys|;
    assert after.Keys == before.Keys by {
      SubsetOfSameSize(after.Keys, before.Keys);
    }
  }

  lemma SubsetOfSameSize<T>(a: set<T>, b: set<T>)
    requires a <= b && |a| == |b|
    ensures a == b
  {
    assert |b - a| == 0;
  }

  /** After a call without faults that stayed below the cap, every text has a row of the
      caller's dimension. */
  lemma SettledServes(hash: string -> Digest, before: Table, after: Table, enc: Encoder, config: Config,
                      encoded: seq<string>, now: int, text: string)
    requires config.dimension.Some? && |after| < MAX_ROWS
    requires Settled(hash, before, after, enc, config, encoded, now, NO_FAULTS)
    requires text in encoded || Hit(before, Key(hash(text), config.Space()), config.dimension)
    ensures Hit(after, Key(hash(text), config.Space()), config.dimension)
  {
    if encoded != [] {
      var vs := Encoded(enc, config, encoded, false).value;
      assert encoded[..|encoded|] == encoded && vs[..|vs|] == vs;
      EvictionBelowCap(WithRows(hash, before, config.Space(), encoded, vs, now), after);
      forall i | 0 <= i < |vs| ensures |vs[i]| == config.dimension.value {
        EncodedEntry(enc, config, encoded, i);
      }
      WrittenRowsHit(hash, before, config.Space(), encoded, vs, now, config.dimension.value, text);
    }
  }

  /** Nor does such a call touch the rows of another namespace. */
  lemma OtherSpacesStay(hash: string -> Digest, before: Table, after: Table, enc: Encoder, config: Config,
                        encoded: seq<string>, now: int, key: Key)
    requires |after| < MAX_ROWS && key.space != config.Space()
    requires Settled(hash, before, after, enc, config, encoded, now, NO_FAULTS)
    ensures (key in after <==> key in before) && (key in before ==> after[key] == before[key])
  {
    if encoded != [] {
      var vs := Encoded(enc, config, encoded, false).value;
      assert encoded[..|encoded|] == encoded && vs[..|vs|] == vs;
      EvictionBelowCap(WithRows(hash, before, config.Space(), encoded, vs, now), after);
      RowsAfterWriting(hash, before, config.Space(), encoded, vs, now, key);
    }
  }

  /** One thing that happens to a shared cache: a call, or the loss of some rows. */
  datatype Event = Call(config: Config, contents: seq<string>, now: int, faults: Faults) | Loss(keys: set<Key>)

  /** Each text's own encoding by the configuration's model, at its dimension. */
  ghost predicate OwnEncodings(enc: Encoder, config: Config, contents: seq<string>, vs: seq<Vector>) {
    && |vs| == |contents|
    && (contents != [] ==> config.dimension.Some?)
    && forall i | 0 <= i < |contents| ::
         vs[i] == enc(config.model, config.dimension.value, contents[i]) && |vs[i]| == config.dimension.value
  }

  lemma EncodedIsOwn(enc: Encoder, config: Config, contents: seq<string>)
    ensures Encoded(enc, config, contents, false).Success? ==>
              OwnEncodings(enc, config, contents, Encoded(enc, config, contents, false).value)
  {
    if Encoded(enc, config, contents, false).Success? {
      forall i | 0 <= i < |contents|
        ensures Encoded(enc, config, contents, false).value[i] ==
                enc(config.model, config.dimension.value, contents[i])
                && |Encoded(enc, config, contents, false).value[i]| == config.dimension.value
      {
        EncodedEntry(enc, config, contents, i);
      }
    }
  }

  /** What a call may answer: an error, or the plain encoding of its texts. */
  ghost predicate Answers(enc: Encoder, event: Event, answer: Result<seq<Vector>, EncodeError>) {
    event.Call? && answer.Success? ==> OwnEncodings(enc, event.config, event.contents, answer.value)
  }

  /** The texts a call encodes: with the cache open each at most once, and none that it was not asked for. */
  predicate Paid(event: Event, encoded: seq<string>) {
    match event
    case Call(_, contents, _, faults) =>
      if faults.noCache then encoded == contents
      else Distinct(encoded) && forall text | text in encoded :: text in contents
    case Loss(_) => encoded == []
  }

  // ---------------------------------------------------------------------------
  // The cache
  // ---------------------------------------------------------------------------

  class EmbeddingCache {
    const hash: string -> Digest
    var rows: Table

    constructor (hash: string -> Digest)
      requires Injective(hash)
      ensures this.hash == hash && rows == map[]
    {
      this.hash := hash;
      rows := map[];
    }

    ghost predicate Valid(enc: Encoder)
      reads this
    {
      Injective(hash) && Sound(hash, enc, rows)
    }

    predicate Serves(config: Config, text: string)
      reads this
    {
      Hit(rows, Key(hash(text), config.Space()), config.dimension)
    }

    /** The vectors found for the texts, read in batches of distinct digests. */
    method LookUp(config: Config, contents: seq<string>, fails: bool) returns (found: map<Digest, Vector>)
      ensures fails ==> found == map[]
      ensures !fails ==> forall i | 0 <= i < |contents| :: hash(contents[i]) in found <==> Serves(config, contents[i])
      ensures forall sha | sha in found ::
        Hit(rows, Key(sha, config.Space()), config.dimension) && found[sha] == rows[Key(sha, config.Space())].vector
    {
      found := map[];
      if fails {
        return;
      }
      var unique := DistinctDigests(contents);
      var j := 0;
      while j < |unique|
        invariant 0 <= j
        invariant forall i | 0 <= i < |unique| && i < j ::
          unique[i] in found <==> Hit(rows, Key(unique[i], config.Space()), config.dimension)
        invariant forall sha | sha in found ::
          Hit(rows, Key(sha, config.Space()), config.dimension) && found[sha] == rows[Key(sha, config.Space())].vector
      {
        var end := if j + LOOKUP_BATCH < |unique| then j + LOOKUP_BATCH else |unique|;
        for i := j to end
          invariant forall k | 0 <= k < i ::
            unique[k] in found <==> Hit(rows, Key(unique[k], config.Space()), config.dimension)
          invariant forall sha | sha in found ::
            Hit(rows, Key(sha, config.Space()), config.dimension) && found[sha] == rows[Key(sha, config.Space())].vector
        {
          var key := Key(unique[i], config.Space());
          if Hit(rows, key, config.dimension) {
            found := found[unique[i] := rows[key].vector];
          }
        }
        j := j + LOOKUP_BATCH;
      }
    }

    method DistinctDigests(contents: seq<string>) returns (unique: seq<Digest>)
      ensures Distinct(unique)
      ensures forall i | 0 <= i < |contents| :: hash(contents[i]) in unique
    {
      unique := [];
      for i := 0 to |contents|
        invariant Distinct(unique)
        invariant forall k | 0 <= k < i :: hash(contents[k]) in unique
      {
        if hash(contents[i]) !in unique {
          unique := unique + [hash(contents[i])];
        }
      }
    }

    /** The texts without a vector, each once, in order of first appearance. */
    method Misses(contents: seq<string>, found: map<Digest, Vector>) returns (missing: seq<string>)
      requires Injective(hash)
      ensures Distinct(missing)
      ensures forall text :: text in missing <==> text in contents && hash(text) !in found
    {
      missing := [];
      var seen: set<Digest> := {};
      for i := 0 to |contents|
        invariant Distinct(missing)
        invariant forall sha :: sha in seen <==> exists text :: text in missing && hash(text) == sha
        invariant forall text :: text in missing <==> text in contents[..i] && hash(text) !in found
      {
        assert contents[..i + 1] == contents[..i] + [contents[i]];
        var sha := hash(contents[i]);
        if sha !in found && sha !in seen {
          seen := seen + {sha};
          missing := missing + [contents[i]];
        }
      }
      assert contents[..|contents|] == contents;
    }

    /** The vectors found, completed by the ones just encoded. */
    method Merge(found: map<Digest, Vector>, texts: seq<string>, vs: seq<Vector>) returns (all: map<Digest, Vector>)
      requires Injective(hash) && Distinct(texts) && |texts| == |vs|
      requires forall text | text in texts :: hash(text) !in found
      ensures forall i | 0 <= i < |texts| :: hash(texts[i]) in all && all[hash(texts[i])] == vs[i]
      ensures forall sha | sha in found :: sha in all && all[sha] == found[sha]
    {
      all := found;
      for i := 0 to |texts|
        invariant forall k | 0 <= k < i :: hash(texts[k]) in all && all[hash(texts[k])] == vs[k]
        invariant forall sha | sha in found :: sha in all && all[sha] == found[sha]
      {
        assert texts[i] in texts;
        all := all[hash(texts[i]) := vs[i]];
      }
    }

    /** Write rows for the first `count` texts. */
    method Write(space: Namespace, texts: seq<string>, vs: seq<Vector>, now: int, count: nat)
      requires |texts| == |vs| && count <= |texts|
      modifies this`rows
      ensures rows == WithRows(hash, old(rows), space, texts[..count], vs[..count], now)
    {
      for i := 0 to count
        invariant rows == WithRows(hash, old(rows), space, texts[..i], vs[..i], now)
      {
        assert texts[..i + 1][..i] == texts[..i] && vs[..i + 1][..i] == vs[..i];
        rows := rows[Key(hash(texts[i]), space) := Row(vs[i], |vs[i]|, now)];
      }
    }

    /** Encoding through the cache. Whatever the cache holds or loses, a call that returns gives every
        text's own encoding at the caller's dimension. With the cache open, each text is encoded at
        most once, and exactly when no row of the caller's dimension was read for it. */
    method EmbedDocuments(enc: Encoder, config: Config, contents: seq<string>, now: int, faults: Faults)
      returns (result: Result<seq<Vector>, EncodeError>, encoded: seq<string>)
      requires Valid(enc)
      modifies this`rows
      ensures Valid(enc)
      ensures result.Success? && contents != [] ==> result == Encoded(enc, config, contents, false)
      ensures result.Success? ==> OwnEncodings(enc, config, contents, result.value)
      ensures result.Failure? ==> rows == old(rows)
      ensures result.Failure? <==>
              (encoded != [] || faults.noCache) && Encoded(enc, config, encoded, faults.encodeFails).Failure?
      ensures result.Failure? ==> result.error == Encoded(enc, config, encoded, faults.encodeFails).error
      ensures faults.noCache ==> encoded == contents && rows == old(rows)
      ensures !faults.noCache ==> Distinct(encoded)
      ensures !faults.noCache ==>
        forall text :: text in encoded <==> text in contents && (faults.readFails || !old(Serves(config, text)))
      ensures !faults.noCache && result.Success? ==>
        Settled(hash, old(rows), rows, enc, config, encoded, now, faults)
    {
      EncodedIsOwn(enc, config, contents);
      if faults.noCache {
        encoded := contents;
        result := Encoded(enc, config, contents, faults.encodeFails);
        return;
      }
      var found := LookUp(config, contents, faults.readFails);
      encoded := Misses(contents, found);
      if encoded != [] {
        var got := Encoded(enc, config, encoded, faults.encodeFails);
        if got.Failure? {
          return Failure(got.error), encoded;
        }
        ghost var hits := found;
        found := Merge(found, encoded, got.value);
        FoundIsComplete(hash, enc, rows, config, contents, hits, encoded, found);
        Remember(enc, config, encoded, got.value, now, faults);
      } else {
        FoundIsComplete(hash, enc, rows, config, contents, found, [], found);
      }
      result := Success(Picked(hash, found, contents));
      CompleteIsEncoded(hash, enc, config, contents, found);
    }

    method Remember(enc: Encoder, config: Config, encoded: seq<string>, vs: seq<Vector>, now: int, faults: Faults)
      requires Valid(enc) && encoded != [] && Encoded(enc, config, encoded, false) == Success(vs)
      modifies this`rows
      ensures Valid(enc) && Settled(hash, old(rows), rows, enc, config, encoded, now, faults)
    {
      var count := Written(faults, |encoded|);
      EncodedEntry(enc, config, encoded, 0);
      EncodedPrefix(enc, config, encoded, count);
      WritingKeepsSound(hash, enc, rows, config, encoded[..count], now);
      Write(config.Space(), encoded, vs, now, count);
      if faults.written.None? && !faults.evictFails {
        var kept := Evict(rows);
        EvictionKeepsSound(hash, enc, rows, kept);
        rows := kept;
      }
    }

    /** Over any history of calls by any embedders, with rows lost at any time, every call that
        returns gives the plain encodings; and no call encodes a text twice while its cache is open. */
    method Serve(enc: Encoder, events: seq<Event>)
      returns (answers: seq<Result<seq<Vector>, EncodeError>>, encodings: seq<seq<string>>)
      requires Valid(enc)
      modifies this`rows
      ensures Valid(enc) && |answers| == |encodings| == |events|
      ensures forall i | 0 <= i < |events| :: Answers(enc, events[i], answers[i])
      ensures forall i | 0 <= i < |events| :: Paid(events[i], encodings[i])
    {
      answers, encodings := [], [];
      for i := 0 to |events|
        invariant Valid(enc) && |answers| == |encodings| == i
        invariant forall k | 0 <= k < i :: Answers(enc, events[k], answers[k])
        invariant forall k | 0 <= k < i :: Paid(events[k], encodings[k])
      {
        var answer: Result<seq<Vector>, EncodeError>, encoded: seq<string> := Success([]), [];
        match events[i] {
          case Call(config, contents, now, faults) =>
            answer, encoded := EmbedDocuments(enc, config, contents, now, faults);
          case Loss(keys) =>
            EvictionKeepsSound(hash, enc, rows, rows - keys);
            rows := rows - keys;
        }
        answers, encodings := answers + [answer], encodings + [encoded];
      }
    }

    /** What the second of two calls with the same texts pays: nothing for the same model at the same dimension,
        everything at another one, since the two dimensions share their rows, and for another model, be it only
        the input mode that differs, what it would have paid without the first call. */
    method EmbedTwice(enc: Encoder, first: Config, second: Config, contents: seq<string>, now: int, later: int)
      returns (paid: seq<string>, held: nat, served: bool)
      requires Valid(enc) && first.dimension.Some?
      modifies this`rows
      ensures Valid(enc)
      ensures served && held < MAX_ROWS && second == first ==>
        forall text :: text !in paid
      ensures served && held < MAX_ROWS && second.model == first.model && second.dimension != first.dimension ==>
        forall text :: text in paid <==> text in contents
      ensures served && held < MAX_ROWS && second.model != first.model ==>
        forall text :: text in paid <==> text in contents && !old(Serves(second, text))
    {
      ghost var before := rows;
      var answer, encoded := EmbedDocuments(enc, first, contents, now, NO_FAULTS);
      served, held := answer.Success?, |rows|;
      if served && held < MAX_ROWS {
        forall text | text in contents ensures Serves(first, text) {
          SettledServes(hash, before, rows, enc, first, encoded, now, text);
        }
        if second.model != first.model {
          SpaceSeparates(first.model, second.model);
          forall text ensures Serves(second, text) == old(Serves(second, text)) {
            OtherSpacesStay(hash, before, rows, enc, first, encoded, now, Key(hash(text), second.Space()));
          }
        }
      }
      answer, paid := EmbedDocuments(enc, second, contents, later, NO_FAULTS);
    }
  }
}
