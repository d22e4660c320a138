/** Snapshots of a source tree: serialising the Merkle DAG and comparing two of them. */
module Merkle {
  import opened Wrappers
  import opened PathOrder

  datatype Node = Node(path: string, hash: string, isFile: bool, size: nat, children: seq<Node>)

  /** The dictionary form of a node; the keys `size` and `children` may be missing. */
  datatype NodeDict =
    | NodeDict(path: string, hash: string, isFile: bool, size: Option<nat>, children: seq<NodeDict>)
    | ChildlessDict(path: string, hash: string, isFile: bool, size: Option<nat>)

  // ---------------------------------------------------------------------------
  // Serialisation
  // ---------------------------------------------------------------------------

  function ToDict(n: Node): NodeDict {
    NodeDict(n.path, n.hash, n.isFile, Some(n.size), ToDicts(n.children))
  }

  function ToDicts(ns: seq<Node>): seq<NodeDict> {
    if ns == [] then [] else [ToDict(ns[0])] + ToDicts(ns[1..])
  }

  function FromDict(d: NodeDict): Node {
    var size := if d.size.Some? then d.size.value else 0;
    match d
    case NodeDict(path, hash, isFile, _, children) => Node(path, hash, isFile, size, FromDicts(children))
    case ChildlessDict(path, hash, isFile, _) => Node(path, hash, isFile, size, [])
  }

  function FromDicts(ds: seq<NodeDict>): seq<Node> {
    if ds == [] then [] else [FromDict(ds[0])] + FromDicts(ds[1..])
  }

  lemma {:induction false} NodeRoundTrip(n: Node)
    ensures FromDict(ToDict(n)) == n
  {
    NodesRoundTrip(n.children);
  }

  lemma {:induction false} NodesRoundTrip(ns: seq<Node>)
    ensures FromDicts(ToDicts(ns)) == ns
  {
    if ns != [] {
      NodeRoundTrip(ns[0]);
      NodesRoundTrip(ns[1..]);
      assert ToDicts(ns)[1..] == ToDicts(ns[1..]);
      assert ns == [ns[0]] + ns[1..];
    }
  }

  // ---------------------------------------------------------------------------
  // The map from paths to nodes
  // ---------------------------------------------------------------------------

  /** As `build_node` fills it: children before their directory. */
  function BuiltNodes(n: Node): map<string, Node> {
    BuiltChildren(n.children)[n.path := n]
  }

  function BuiltChildren(ns: seq<Node>): map<string, Node> {
    if ns == [] then map[] else BuiltChildren(ns[..|ns| - 1]) + BuiltNodes(ns[|ns| - 1])
  }

  /** As `add_to_nodes` fills it after loading: a directory before its children. */
  function LoadedNodes(n: Node): map<string, Node> {
    map[n.path := n] + LoadedChildren(n.children)
  }

  function LoadedChildren(ns: seq<Node>): map<string, Node> {
    if ns == [] then map[] else LoadedChildren(ns[..|ns| - 1]) + LoadedNodes(ns[|ns| - 1])
  }

  function Paths(n: Node): set<string> {
    PathsOfAll(n.children) + {n.path}
  }

  function PathsOfAll(ns: seq<Node>): set<string> {
    if ns == [] then {} else PathsOfAll(ns[..|ns| - 1]) + Paths(ns[|ns| - 1])
  }

  /** No path occurs twice in the tree. */
  predicate DistinctPaths(n: Node) {
    n.path !in PathsOfAll(n.children) && DistinctChildren(n.children)
  }

  predicate DistinctChildren(ns: seq<Node>) {
    ns == [] ||
    (DistinctChildren(ns[..|ns| - 1]) && DistinctPaths(ns[|ns| - 1])
     && PathsOfAll(ns[..|ns| - 1]) !! Paths(ns[|ns| - 1]))
  }

  lemma {:induction false} NodeKeys(n: Node)
    ensures BuiltNodes(n).Keys == Paths(n) && LoadedNodes(n).Keys == Paths(n)
  {
    ChildKeys(n.children);
  }

  lemma {:induction false} ChildKeys(ns: seq<Node>)
    ensures BuiltChildren(ns).Keys == PathsOfAll(ns) && LoadedChildren(ns).Keys == PathsOfAll(ns)
  {
    if ns != [] {
      ChildKeys(ns[..|ns| - 1]);
      NodeKeys(ns[|ns| - 1]);
    }
  }

  /** Both orders of filling give one map when paths are distinct. */
  lemma {:induction false} FillingOrderIsIrrelevant(n: Node)
    requires DistinctPaths(n)
    ensures LoadedNodes(n) == BuiltNodes(n)
  {
    FillingChildren(n.children);
    ChildKeys(n.children);
  }

  lemma {:induction false} FillingChildren(ns: seq<Node>)
    requires DistinctChildren(ns)
    ensures LoadedChildren(ns) == BuiltChildren(ns)
  {
    if ns != [] {
      FillingChildren(ns[..|ns| - 1]);
      FillingOrderIsIrrelevant(ns[|ns| - 1]);
    }
  }

  function NodesIn(n: Node): set<Node> {
    NodesInAll(n.children) + {n}
  }

  function NodesInAll(ns: seq<Node>): set<Node> {
    if ns == [] then {} else NodesInAll(ns[..|ns| - 1]) + NodesIn(ns[|ns| - 1])
  }

  lemma {:induction false} NodePaths(n: Node, m: Node)
    ensures m in NodesIn(n) ==> m.path in Paths(n)
  {
    ChildPaths(n.children, m);
  }

  lemma {:induction false} ChildPaths(ns: seq<Node>, m: Node)
    ensures m in NodesInAll(ns) ==> m.path in PathsOfAll(ns)
  {
    if ns != [] {
      ChildPaths(ns[..|ns| - 1], m);
      NodePaths(ns[|ns| - 1], m);
    }
  }

  /** The map finds every node of the tree under its path, and nothing else. */
  lemma {:induction false} BuiltNodesAreExact(n: Node, m: Node)
    requires DistinctPaths(n)
    ensures m in NodesIn(n) <==> m.path in BuiltNodes(n) && BuiltNodes(n)[m.path] == m
  {
    BuiltChildrenAreExact(n.children, m);
    ChildKeys(n.children);
    ChildPaths(n.children, m);
  }

  lemma {:induction false} BuiltChildrenAreExact(ns: seq<Node>, m: Node)
    requires DistinctChildren(ns)
    ensures m in NodesInAll(ns) <==> m.path in BuiltChildren(ns) && BuiltChildren(ns)[m.path] == m
  {
    if ns != [] {
      var less, last := ns[..|ns| - 1], ns[|ns| - 1];
      BuiltChildrenAreExact(less, m);
      BuiltNodesAreExact(last, m);
      ChildKeys(less);
      NodeKeys(last);
      ChildPaths(less, m);
      NodePaths(last, m);
    }
  }

  /** Each key of the map is the path of the node it leads to. */
  lemma {:induction false} BuiltUnderPath(n: Node, path: string)
    ensures path in BuiltNodes(n) ==> BuiltNodes(n)[path].path == path
  {
    ChildrenUnderPath(n.children, path);
  }

  lemma {:induction false} ChildrenUnderPath(ns: seq<Node>, path: string)
    ensures path in BuiltChildren(ns) ==> BuiltChildren(ns)[path].path == path
  {
    if ns != [] {
      ChildrenUnderPath(ns[..|ns| - 1], path);
      BuiltUnderPath(ns[|ns| - 1], path);
    }
  }

  /** The hashes compared are those of the files of the tree, directories left out. */
  lemma FileHashesOfTree(root: Node, path: string, hash: string)
    requires DistinctPaths(root)
    ensures path in FileHashes(BuiltNodes(root)) && FileHashes(BuiltNodes(root))[path] == hash <==>
            exists m :: m in NodesIn(root) && m.isFile && m.path == path && m.hash == hash
  {
    BuiltUnderPath(root, path);
    if path in BuiltNodes(root) {
      BuiltNodesAreExact(root, BuiltNodes(root)[path]);
    }
    if m :| m in NodesIn(root) && m.isFile && m.path == path && m.hash == hash {
      BuiltNodesAreExact(root, m);
    }
  }

  /** Saving and loading a snapshot rebuilds the same tree and the same map of nodes. */
  lemma SnapshotRoundTrip(root: Node)
    requires DistinctPaths(root)
    ensures FromDict(ToDict(root)) == root
    ensures LoadedNodes(FromDict(ToDict(root))) == BuiltNodes(root)
    ensures FileHashes(LoadedNodes(FromDict(ToDict(root)))) == FileHashes(BuiltNodes(root))
  {
    NodeRoundTrip(root);
    FillingOrderIsIrrelevant(root);
  }

  // ---------------------------------------------------------------------------
  // Change detection
  // ---------------------------------------------------------------------------

  /** `get_file_hashes`. */
  function FileHashes(nodes: map<string, Node>): map<string, string> {
    map path | path in nodes && nodes[path].isFile :: nodes[path].hash
  }

  datatype FileChanges =
    FileChanges(added: seq<string>, removed: seq<string>, modified: seq<string>, same: seq<string>)

  predicate HasChanges(c: FileChanges) {
    c.added != [] || c.removed != [] || c.modified != []
  }

  ghost predicate SortedExactly(paths: seq<string>, s: iset<string>) {
    StrictlySorted(paths) && forall p :: p in paths <==> p in s
  }

  /** The four lists are sorted and hold exactly the paths of their kind. */
  ghost predicate Describes<H>(c: FileChanges, before: map<string, H>, after: map<string, H>) {
    && SortedExactly(c.added, iset p | p in after && p !in before)
    && SortedExactly(c.removed, iset p | p in before && p !in after)
    && SortedExactly(c.modified, iset p | p in before && p in after && before[p] != after[p])
    && SortedExactly(c.same, iset p | p in before && p in after && before[p] == after[p])
  }

  /** The changes as one expression. */
  function Changes<H(==)>(before: map<string, H>, after: map<string, H>): (c: FileChanges)
    ensures Describes(c, before, after)
  {
    FileChanges(
      SortedSet(after.Keys - before.Keys),
      SortedSet(before.Keys - after.Keys),
      SortedSet(set p | p in before && p in after && before[p] != after[p]),
      SortedSet(set p | p in before && p in after && before[p] == after[p]))
  }

  lemma DescriptionIsUnique<H>(c: FileChanges, c': FileChanges, before: map<string, H>, after: map<string, H>)
    requires Describes(c, before, after) && Describes(c', before, after)
    ensures c == c'
  {
    SortedListIsUnique(c.added, c'.added);
    SortedListIsUnique(c.removed, c'.removed);
    SortedListIsUnique(c.modified, c'.modified);
    SortedListIsUnique(c.same, c'.same);
  }

  /** The loop over the common paths. */
  method SplitCommon<H(==)>(common: seq<string>, before: map<string, H>, after: map<string, H>)
    returns (modified: seq<string>, same: seq<string>)
    requires StrictlySorted(common)
    requires forall p | p in common :: p in before && p in after
    ensures StrictlySorted(modified) && forall p :: p in modified <==> p in common && before[p] != after[p]
    ensures StrictlySorted(same) && forall p :: p in same <==> p in common && before[p] == after[p]
  {
    modified, same := [], [];
    for i := 0 to |common|
      invariant StrictlySorted(modified) && StrictlySorted(same)
      invariant forall p :: p in modified <==> p in common[..i] && before[p] != after[p]
      invariant forall p :: p in same <==> p in common[..i] && before[p] == after[p]
    {
      var path := common[i];
      assert common[..i + 1] == common[..i] + [path];
      forall p | p in common[..i] ensures AtMost(p, path) && p != path {
        var j :| 0 <= j < i && common[j] == p;
      }
      if before[path] != after[path] {
        assert forall j | 0 <= j < |modified| :: modified[j] in common[..i];
        modified := modified + [path];
      } else {
        assert forall j | 0 <= j < |same| :: same[j] in common[..i];
        same := same + [path];
      }
    }
    assert common[..|common|] == common;
  }

  /** `detect_changes`. */
  method DetectChanges<H(==)>(before: map<string, H>, after: map<string, H>) returns (c: FileChanges)
    ensures Describes(c, before, after) && c == Changes(before, after)
  {
    var added := SortedSet(after.Keys - before.Keys);
    var removed := SortedSet(before.Keys - after.Keys);
    var common := SortedSet(before.Keys * after.Keys);
    var modified, same := SplitCommon(common, before, after);
    c := FileChanges(added, removed, modified, same);
    DescriptionIsUnique(c, Changes(before, after), before, after);
  }

  /** `get_files_to_reindex`. */
  function FilesToReindex(c: FileChanges): (r: seq<string>) {
    SortedSet((set p | p in c.added) + (set p | p in c.modified))
  }

  /** `get_files_to_remove`. */
  function FilesToRemove(c: FileChanges): (r: seq<string>) {
    SortedSet((set p | p in c.removed) + (set p | p in c.modified))
  }

  /** The four lists partition the union of both trees. */
  lemma ChangesPartition<H>(c: FileChanges, before: map<string, H>, after: map<string, H>, p: string)
    requires Describes(c, before, after)
    ensures p in before || p in after <==> p in c.added || p in c.removed || p in c.modified || p in c.same
    ensures p in c.added ==> p !in c.removed && p !in c.modified && p !in c.same
    ensures p in c.removed ==> p !in c.modified && p !in c.same
    ensures p in c.modified ==> p !in c.same
    ensures !HasChanges(c) <==> before == after
  {
    assert |c.added| > 0 ==> c.added[0] in c.added;
    assert |c.removed| > 0 ==> c.removed[0] in c.removed;
    assert |c.modified| > 0 ==> c.modified[0] in c.modified;
    if !HasChanges(c) {
      forall q ensures q in before <==> q in after {
        assert q !in c.added && q !in c.removed;
      }
      forall q | q in before ensures before[q] == after[q] {
        assert q !in c.modified;
      }
    }
  }

  lemma FileLists<H>(c: FileChanges, before: map<string, H>, after: map<string, H>, p: string)
    requires Describes(c, before, after)
    ensures p in FilesToRemove(c) <==> p in before && (p !in after || before[p] != after[p])
    ensures p in FilesToReindex(c) <==> p in after && (p !in before || before[p] != after[p])
  {
  }

  /** Drop the keys of one list, then write those of another. */
  function Updated<H>(before: map<string, H>, remove: seq<string>, write: seq<string>, after: map<string, H>)
    : map<string, H>
    requires forall p | p in write :: p in after
  {
    (before - (set p | p in remove)) + (map p | p in write :: after[p])
  }

  /** Dropping the files to remove and then writing the files to reindex turns the old map
      of hashes into the new one. */
  lemma ChangesTakeOldToNew<H>(c: FileChanges, before: map<string, H>, after: map<string, H>)
    requires Describes(c, before, after)
    ensures forall p | p in FilesToReindex(c) :: p in after
    ensures Updated(before, FilesToRemove(c), FilesToReindex(c), after) == after
  {
    forall p
      ensures p in FilesToRemove(c) <==> p in before && (p !in after || before[p] != after[p])
      ensures p in FilesToReindex(c) <==> p in after && (p !in before || before[p] != after[p])
    {
      FileLists(c, before, after, p);
    }
    UpdateByDifference(before, FilesToRemove(c), FilesToReindex(c), after);
  }

  lemma UpdateByDifference<H>(before: map<string, H>, remove: seq<string>, write: seq<string>, after: map<string, H>)
    requires forall p :: p in remove <==> p in before && (p !in after || before[p] != after[p])
    requires forall p :: p in write <==> p in after && (p !in before || before[p] != after[p])
    ensures Updated(before, remove, write, after) == after
  {
  }
}
