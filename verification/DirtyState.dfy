/** The dirty fingerprint of a checkout, as the bytes fed to its digest, and the generation
    identifier derived from it. */
module DirtyState {
  import opened Wrappers
  import opened Frames

  // ---------------------------------------------------------------------------
  // `git status -z`
  // ---------------------------------------------------------------------------

  /** `status.split(b"\\0")`. */
  function Records(status: Bytes): (records: seq<Bytes>)
    ensures |records| >= 1
    decreases |status|
  {
    match Cut(status)
    case None => [status]
    case Some((first, rest)) => [first] + Records(rest)
  }

  predicate IsUntracked(record: Bytes) {
    |record| > 3 && record[..3] == Ascii("?? ")
  }

  function PathsIn(records: seq<Bytes>): seq<Bytes> {
    if records == [] then []
    else (if IsUntracked(records[0]) then [records[0][3..]] else []) + PathsIn(records[1..])
  }

  /** `_untracked_paths`, before sorting. */
  function UntrackedPaths(status: Bytes): seq<Bytes> {
    PathsIn(Records(status))
  }

  function Joined(records: seq<Bytes>): Bytes
    requires |records| >= 1
  {
    if |records| == 1 then records[0] else Join(records[0], Joined(records[1..]))
  }

  /** The records are the NUL-free parts of the status. */
  lemma {:induction false} RecordsSplit(status: Bytes)
    ensures Joined(Records(status)) == status
    ensures forall r | r in Records(status) :: NUL !in r
    decreases |status|
  {
    if Cut(status).Some? {
      var (first, rest) := Cut(status).value;
      RecordsSplit(rest);
      assert Records(status)[1..] == Records(rest);
      assert status == first + [NUL] + rest;
    }
  }

  lemma RecordOfPath(record: Bytes, path: Bytes)
    requires path != []
    ensures record == Ascii("?? ") + path <==> IsUntracked(record) && record[3..] == path
  {
    if IsUntracked(record) {
      assert record == record[..3] + record[3..];
    }
  }

  lemma {:induction false} PathsCount(records: seq<Bytes>, path: Bytes)
    requires path != []
    ensures multiset(PathsIn(records))[path] == multiset(records)[Ascii("?? ") + path]
  {
    hide Ascii, IsUntracked;
    if records != [] {
      PathsCount(records[1..], path);
      assert records == [records[0]] + records[1..];
      RecordOfPath(records[0], path);
    }
  }

  lemma {:induction false} NoEmptyPath(records: seq<Bytes>)
    ensures [] !in PathsIn(records)
  {
    if records != [] { NoEmptyPath(records[1..]); }
  }

  /** The untracked paths are exactly the rests of the records that start with `?? `, each as often as it occurs. */
  lemma UntrackedPathsAreExact(status: Bytes, path: Bytes)
    ensures multiset(UntrackedPaths(status))[path] ==
            if path == [] then 0 else multiset(Records(status))[Ascii("?? ") + path]
  {
    NoEmptyPath(Records(status));
    if path != [] { PathsCount(Records(status), path); }
  }

  lemma {:induction false} PathsAreNulFree(records: seq<Bytes>)
    requires forall r | r in records :: NUL !in r
    ensures forall p | p in PathsIn(records) :: NUL !in p
  {
    if records != [] {
      PathsAreNulFree(records[1..]);
      assert records[0] in records;
    }
  }

  /** So an untracked path can never contain the separator of its payload. */
  lemma UntrackedPathsAreNulFree(status: Bytes)
    ensures forall p | p in UntrackedPaths(status) :: NUL !in p
  {
    RecordsSplit(status);
    PathsAreNulFree(Records(status));
  }

  // ---------------------------------------------------------------------------
  // The fingerprint
  // ---------------------------------------------------------------------------

  datatype State = State(status: Bytes, worktreeDiff: Bytes, cachedDiff: Bytes,
                         untracked: seq<Untracked>, submodules: seq<Submodule>)

  function UntrackedFrame(u: Untracked): Frame {
    Frame(Ascii("UNTRACKED"), UntrackedPayload(u))
  }

  function SubmoduleFrame(m: Submodule): Frame {
    Frame(Ascii("SUBMODULE"), SubmodulePayload(m))
  }

  function DiffFrames(s: State): (frames: seq<Frame>)
    ensures |frames| == 3
  {
    [Frame(Ascii("STATUS"), s.status), Frame(Ascii("WORKTREE_DIFF"), s.worktreeDiff),
     Frame(Ascii("CACHED_DIFF"), s.cachedDiff)]
  }

  function UntrackedFrames(us: seq<Untracked>): (frames: seq<Frame>)
    ensures |frames| == |us| && forall i | 0 <= i < |us| :: frames[i] == UntrackedFrame(us[i])
  {
    seq(|us|, i requires 0 <= i < |us| => UntrackedFrame(us[i]))
  }

  function SubmoduleFrames(ms: seq<Submodule>): (frames: seq<Frame>)
    ensures |frames| == |ms| && forall i | 0 <= i < |ms| :: frames[i] == SubmoduleFrame(ms[i])
  {
    seq(|ms|, i requires 0 <= i < |ms| => SubmoduleFrame(ms[i]))
  }

  function DirtyFrames(s: State): seq<Frame> {
    DiffFrames(s) + UntrackedFrames(s.untracked) + SubmoduleFrames(s.submodules)
  }

  /** The fingerprint "clean", or the bytes that are hashed. */
  function Fingerprint(s: State): Option<Bytes> {
    if s.status == [] && s.submodules == [] then None else Some(Stream(DirtyFrames(s)))
  }

  /** The state that a fingerprint is taken of; `inspect` says what is found at an untracked path. */
  function StateOf(status: Bytes, worktreeDiff: Bytes, cachedDiff: Bytes, untracked: seq<Bytes>,
                   inspect: Bytes -> (Kind, Bytes), submodules: seq<Submodule>): State {
    State(status, worktreeDiff, cachedDiff,
          seq(|untracked|, i requires 0 <= i < |untracked| =>
            Untracked(untracked[i], inspect(untracked[i]).0, inspect(untracked[i]).1)),
          submodules)
  }

  /** `_dirty_fingerprint`; `untracked` lists the untracked paths of the status in the order in
      which they are hashed. */
  method DirtyFingerprint(status: Bytes, worktreeDiff: Bytes, cachedDiff: Bytes, untracked: seq<Bytes>,
                          inspect: Bytes -> (Kind, Bytes), submodules: seq<Submodule>)
    returns (hashed: Option<Bytes>)
    requires multiset(untracked) == multiset(UntrackedPaths(status))
    ensures hashed == Fingerprint(StateOf(status, worktreeDiff, cachedDiff, untracked, inspect, submodules))
    ensures hashed.None? <==> status == [] && submodules == []
    ensures forall u | u in StateOf(status, worktreeDiff, cachedDiff, untracked, inspect, submodules).untracked ::
      NUL !in u.path
  {
    hide Encode, UntrackedPaths, UntrackedFrame, SubmoduleFrame, Ascii;
    ghost var state := StateOf(status, worktreeDiff, cachedDiff, untracked, inspect, submodules);
    ghost var us := state.untracked;
    UntrackedPathsAreNulFree(status);
    forall u | u in us ensures NUL !in u.path {
      assert u.path in multiset(untracked);
      assert u.path in multiset(UntrackedPaths(status));
    }
    if status == [] && submodules == [] {
      return None;
    }
    var stream := Encode(Frame(Ascii("STATUS"), status));
    stream := stream + Encode(Frame(Ascii("WORKTREE_DIFF"), worktreeDiff));
    stream := stream + Encode(Frame(Ascii("CACHED_DIFF"), cachedDiff));
    ThreeFrames(state);
    stream := FeedUntracked(stream, DiffFrames(state), untracked, inspect, us);
    stream := FeedSubmodules(stream, DiffFrames(state) + UntrackedFrames(us), submodules);
    hashed := Some(stream);
  }

  method FeedUntracked(fed: Bytes, ghost frames: seq<Frame>, untracked: seq<Bytes>, inspect: Bytes -> (Kind, Bytes),
                       ghost us: seq<Untracked>)
    returns (stream: Bytes)
    requires fed == Stream(frames) && |us| == |untracked|
    requires forall i | 0 <= i < |untracked| ::
      us[i] == Untracked(untracked[i], inspect(untracked[i]).0, inspect(untracked[i]).1)
    ensures stream == Stream(frames + UntrackedFrames(us))
  {
    hide Encode, Stream, UntrackedFrame, UntrackedPayload;
    stream := fed;
    assert frames + UntrackedFrames(us[..0]) == frames;
    for i := 0 to |untracked|
      invariant stream == Stream(frames + UntrackedFrames(us[..i]))
    {
      var (kind, digest) := inspect(untracked[i]);
      var u := Untracked(untracked[i], kind, digest);
      StreamSnoc(frames + UntrackedFrames(us[..i]), UntrackedFrame(u));
      assert frames + UntrackedFrames(us[..i + 1]) == frames + UntrackedFrames(us[..i]) + [UntrackedFrame(u)];
      stream := stream + Encode(UntrackedFrame(u));
    }
    assert us[..|untracked|] == us;
  }

  method FeedSubmodules(fed: Bytes, ghost frames: seq<Frame>, submodules: seq<Submodule>) returns (stream: Bytes)
    requires fed == Stream(frames)
    ensures stream == Stream(frames + SubmoduleFrames(submodules))
  {
    hide Encode, Stream, SubmoduleFrame, SubmodulePayload;
    stream := fed;
    assert frames + SubmoduleFrames(submodules[..0]) == frames;
    for i := 0 to |submodules|
      invariant stream == Stream(frames + SubmoduleFrames(submodules[..i]))
    {
      StreamSnoc(frames + SubmoduleFrames(submodules[..i]), SubmoduleFrame(submodules[i]));
      assert frames + SubmoduleFrames(submodules[..i + 1])
          == frames + SubmoduleFrames(submodules[..i]) + [SubmoduleFrame(submodules[i])];
      stream := stream + Encode(SubmoduleFrame(submodules[i]));
    }
    assert submodules[..|submodules|] == submodules;
  }

  lemma ThreeFrames(s: State)
    ensures Stream(DiffFrames(s))
         == Encode(Frame(Ascii("STATUS"), s.status)) + Encode(Frame(Ascii("WORKTREE_DIFF"), s.worktreeDiff))
            + Encode(Frame(Ascii("CACHED_DIFF"), s.cachedDiff))
  {
    hide Encode, Ascii;
    var f := DiffFrames(s);
    StreamSnoc([], f[0]);
    StreamSnoc([f[0]], f[1]);
    StreamSnoc([f[0], f[1]], f[2]);
    assert [] + [f[0]] == [f[0]] && [f[0]] + [f[1]] == [f[0], f[1]] && [f[0], f[1]] + [f[2]] == f;
  }

  // ---------------------------------------------------------------------------
  // Different states, different bytes
  // ---------------------------------------------------------------------------

  /** Every field fits its frame and no path holds a NUL. */
  ghost predicate Encodable(s: State) {
    && (forall f | f in DirtyFrames(s) :: |f.payload| < Pow256(8))
    && (forall u | u in s.untracked :: NUL !in u.path)
    && (forall m | m in s.submodules :: NamesSubmodule(m))
  }

  lemma Names()
    ensures NUL !in Ascii("STATUS") && NUL !in Ascii("WORKTREE_DIFF") && NUL !in Ascii("CACHED_DIFF")
    ensures NUL !in Ascii("UNTRACKED") && NUL !in Ascii("SUBMODULE")
    ensures Ascii("UNTRACKED") != Ascii("SUBMODULE")
  {
    assert Ascii("UNTRACKED")[0] == 'U' as int && Ascii("SUBMODULE")[0] == 'S' as int;
  }

  lemma DirtyFramesAreFramable(s: State)
    requires Encodable(s)
    ensures forall f | f in DirtyFrames(s) :: Framable(f)
  {
    Names();
  }

  lemma SameUntracked(a: seq<Untracked>, b: seq<Untracked>)
    requires UntrackedFrames(a) == UntrackedFrames(b)
    requires forall u | u in a :: NUL !in u.path
    requires forall u | u in b :: NUL !in u.path
    ensures a == b
  {
    assert |a| == |UntrackedFrames(a)| == |b|;
    forall i | 0 <= i < |a| ensures a[i] == b[i] {
      assert UntrackedFrames(a)[i] == UntrackedFrames(b)[i];
      UntrackedRoundTrip(a[i]);
      UntrackedRoundTrip(b[i]);
    }
  }

  lemma SameSubmodules(a: seq<Submodule>, b: seq<Submodule>)
    requires SubmoduleFrames(a) == SubmoduleFrames(b)
    requires forall m | m in a :: NamesSubmodule(m)
    requires forall m | m in b :: NamesSubmodule(m)
    ensures a == b
  {
    assert |a| == |SubmoduleFrames(a)| == |b|;
    forall i | 0 <= i < |a| ensures a[i] == b[i] {
      assert SubmoduleFrames(a)[i] == SubmoduleFrames(b)[i];
      SubmoduleRoundTrip(a[i]);
      SubmoduleRoundTrip(b[i]);
    }
  }

  /** The names say where the untracked entries end. */
  lemma FrameNames(s: State, k: nat)
    requires 3 <= k < |DirtyFrames(s)|
    ensures DirtyFrames(s)[k].name == Ascii("UNTRACKED") <==> k < 3 + |s.untracked|
  {
    Names();
    if k < 3 + |s.untracked| {
      assert DirtyFrames(s)[k] == UntrackedFrame(s.untracked[k - 3]);
    } else {
      assert DirtyFrames(s)[k] == SubmoduleFrame(s.submodules[k - 3 - |s.untracked|]);
    }
  }

  lemma NotMoreUntracked(a: State, b: State)
    requires DirtyFrames(a) == DirtyFrames(b)
    ensures |a.untracked| <= |b.untracked|
  {
    assert |DirtyFrames(a)| == 3 + |a.untracked| + |a.submodules|;
    var k := 3 + |b.untracked|;
    if k < |DirtyFrames(a)| {
      FrameNames(a, k);
      FrameNames(b, k);
    }
  }

  lemma SameFramesSameState(a: State, b: State)
    requires Encodable(a) && Encodable(b) && DirtyFrames(a) == DirtyFrames(b)
    ensures a == b
  {
    NotMoreUntracked(a, b);
    NotMoreUntracked(b, a);
    var n := |a.untracked|;
    assert DiffFrames(a) == DirtyFrames(a)[..3] == DirtyFrames(b)[..3] == DiffFrames(b);
    assert UntrackedFrames(a.untracked) == DirtyFrames(a)[3..3 + n];
    assert UntrackedFrames(b.untracked) == DirtyFrames(b)[3..3 + n];
    assert SubmoduleFrames(a.submodules) == DirtyFrames(a)[3 + n..];
    assert SubmoduleFrames(b.submodules) == DirtyFrames(b)[3 + n..];
    SameUntracked(a.untracked, b.untracked);
    SameSubmodules(a.submodules, b.submodules);
    assert DiffFrames(a)[0].payload == DiffFrames(b)[0].payload;
    assert DiffFrames(a)[1].payload == DiffFrames(b)[1].payload;
    assert DiffFrames(a)[2].payload == DiffFrames(b)[2].payload;
  }

  /** Equal fingerprints mean equal states, unless both checkouts are clean. */
  lemma FingerprintDeterminesState(a: State, b: State)
    requires Encodable(a) && Encodable(b) && Fingerprint(a) == Fingerprint(b) && Fingerprint(a).Some?
    ensures a == b
  {
    DirtyFramesAreFramable(a);
    DirtyFramesAreFramable(b);
    StreamsDiffer(DirtyFrames(a), DirtyFrames(b));
    SameFramesSameState(a, b);
  }

  // ---------------------------------------------------------------------------
  // The generation identifier
  // ---------------------------------------------------------------------------

  datatype Identity = Identity(repository: Bytes, revision: Bytes, fingerprint: Bytes)

  /** The bytes hashed by `derive_index_generation`. */
  function Generation(id: Identity): Bytes {
    id.repository + [NUL] + id.revision + [NUL] + id.fingerprint
  }

  predicate NulFree(id: Identity) {
    NUL !in id.repository && NUL !in id.revision && NUL !in id.fingerprint
  }

  /** A NUL-free revision and fingerprint, which is what a captured identity has, are enough. */
  lemma GenerationDeterminesIdentity(a: Identity, b: Identity)
    requires NUL !in a.revision && NUL !in a.fingerprint && NUL !in b.revision && NUL !in b.fingerprint
    requires Generation(a) == Generation(b)
    ensures a == b
  {
    LastField(a.repository + [NUL] + a.revision, a.fingerprint, b.repository + [NUL] + b.revision, b.fingerprint);
    LastField(a.repository, a.revision, b.repository, b.revision);
  }

  lemma LastField(a: Bytes, x: Bytes, b: Bytes, y: Bytes)
    requires NUL !in x && NUL !in y && a + [NUL] + x == b + [NUL] + y
    ensures a == b && x == y
  {
    NotLonger(a, x, b, y);
    NotLonger(b, y, a, x);
    var s := a + [NUL] + x;
    assert a == s[..|a|] && b == s[..|a|] && x == s[|a| + 1..] && y == s[|a| + 1..];
  }

  lemma NotLonger(a: Bytes, x: Bytes, b: Bytes, y: Bytes)
    requires NUL !in x && a + [NUL] + x == b + [NUL] + y
    ensures |b| <= |a|
  {
    var s := a + [NUL] + x;
    forall k | |a| < k < |s| ensures s[k] != NUL {
      assert s[k] == x[k - |a| - 1];
    }
    assert (b + [NUL] + y)[|b|] == NUL;
  }

  /** A NUL-free identity puts exactly two NULs into its generation. */
  lemma SeparatorsOnly(id: Identity, k: nat)
    requires NulFree(id) && k < |Generation(id)|
    ensures Generation(id)[k] == NUL <==> k == |id.repository| || k == |id.repository| + 1 + |id.revision|
  {
    var g, p, q := Generation(id), |id.repository|, |id.repository| + 1 + |id.revision|;
    if k < p {
      assert g[k] == id.repository[k];
    } else if p < k < q {
      assert g[k] == id.revision[k - p - 1];
    } else if q < k {
      assert g[k] == id.fingerprint[k - q - 1];
    }
  }

  lemma TwoSeparators(id: Identity, other: Identity)
    requires NulFree(id) && Generation(other) == Generation(id)
    ensures NUL !in other.revision && NUL !in other.fingerprint
  {
    var g, p, q := Generation(other), |other.repository|, |other.repository| + 1 + |other.revision|;
    assert g[p] == NUL && g[q] == NUL;
    SeparatorsOnly(id, p);
    SeparatorsOnly(id, q);
    forall j | 0 <= j < |other.revision| ensures other.revision[j] != NUL {
      SeparatorsOnly(id, p + 1 + j);
      assert g[p + 1 + j] == other.revision[j];
    }
    forall j | 0 <= j < |other.fingerprint| ensures other.fingerprint[j] != NUL {
      SeparatorsOnly(id, q + 1 + j);
      assert g[q + 1 + j] == other.fingerprint[j];
    }
  }

  /** The same bytes, cut at a NUL inside a field instead of at a separator. */
  function Shifted(id: Identity): Identity
    requires !NulFree(id)
  {
    match FirstNul(id.repository)
    case Some(i) =>
      Identity(id.repository[..i], id.repository[i + 1..], id.revision + [NUL] + id.fingerprint)
    case None =>
      match FirstNul(id.revision)
      case Some(i) =>
        Identity(id.repository + [NUL] + id.revision[..i], id.revision[i + 1..], id.fingerprint)
      case None =>
        var i := FirstNul(id.fingerprint).value;
        Identity(id.repository + [NUL] + id.revision, id.fingerprint[..i], id.fingerprint[i + 1..])
  }

  lemma ShiftedCollides(id: Identity)
    requires !NulFree(id)
    ensures Generation(Shifted(id)) == Generation(id) && Shifted(id) != id
  {
    var r, v, f := id.repository, id.revision, id.fingerprint;
    if FirstNul(r).Some? {
      var i := FirstNul(r).value;
      CutJoins(r);
      FourParts(r[..i], r[i + 1..], v, f);
      assert |Shifted(id).repository| == i < |r|;
    } else if FirstNul(v).Some? {
      var i := FirstNul(v).value;
      CutJoins(v);
      FourParts(r, v[..i], v[i + 1..], f);
      assert |Shifted(id).repository| > |r|;
    } else {
      var i := FirstNul(f).value;
      CutJoins(f);
      FourParts(r, v, f[..i], f[i + 1..]);
      assert |Shifted(id).repository| > |r|;
    }
  }

  /** Four parts with three NULs between them read as an identity in three ways. */
  lemma FourParts(a: Bytes, b: Bytes, c: Bytes, d: Bytes)
    ensures Generation(Identity(a + [NUL] + b, c, d)) == Generation(Identity(a, b + [NUL] + c, d))
         == Generation(Identity(a, b, c + [NUL] + d))
  {
    var flat := a + [NUL] + b + [NUL] + c + [NUL] + d;
    assert Generation(Identity(a + [NUL] + b, c, d)) == flat;
    assert Generation(Identity(a, b + [NUL] + c, d)) == flat;
    assert Generation(Identity(a, b, c + [NUL] + d)) == flat;
  }

  lemma CutJoins(s: Bytes)
    requires FirstNul(s).Some?
    ensures var i := FirstNul(s).value; s == s[..i] + [NUL] + s[i + 1..]
  {
  }

  /** No other identity has the same generation exactly when no field holds a NUL. */
  lemma GenerationIsUniqueIff(id: Identity)
    ensures NulFree(id) <==> forall other | Generation(other) == Generation(id) :: other == id
  {
    if NulFree(id) {
      forall other | Generation(other) == Generation(id) ensures other == id {
        TwoSeparators(id, other);
        GenerationDeterminesIdentity(id, other);
      }
    } else {
      ShiftedCollides(id);
    }
  }
}
