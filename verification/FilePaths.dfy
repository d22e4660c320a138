/** How a removal target is matched against the paths stored with a chunk. */
module FilePaths {

  function ForwardSlashes(path: string): (r: string)
    ensures |r| == |path|
  {
    if path == [] then []
    else ForwardSlashes(path[..|path| - 1]) + [if path[|path| - 1] == '\\' then '/' else path[|path| - 1]]
  }

  function StripTrailing(path: string): string {
    if path != [] && path[|path| - 1] == '/' then StripTrailing(path[..|path| - 1]) else path
  }

  /** `_normalize_path`. */
  function Normalize(path: string): string {
    StripTrailing(ForwardSlashes(path))
  }

  /** `_is_absolute_norm`. */
  predicate IsAbsolute(path: string) {
    (path != [] && path[0] == '/') || (|path| >= 3 && path[1] == ':' && path[2] == '/')
  }

  /** An absolute path starts with a slash or with a drive. */
  lemma AbsoluteForms(path: string)
    ensures IsAbsolute(path) <==> "/" <= path || exists drive :: [drive] + ":/" <= path
  {
    if |path| >= 3 && path[1] == ':' && path[2] == '/' {
      assert [path[0]] + ":/" <= path;
    }
  }

  predicate EndsWith(text: string, suffix: string) {
    |suffix| <= |text| && text[|text| - |suffix|..] == suffix
  }

  /** `_paths_refer_to_same_file`. */
  predicate RefersToSameFile(target: string, chunkRel: string, chunkAbs: string) {
    var t, rel, abs := Normalize(target), Normalize(chunkRel), Normalize(chunkAbs);
    if t == "" then false
    else if t == rel || t == abs then true
    else if IsAbsolute(t) then rel != "" && EndsWith(t, "/" + rel)
    else rel == "" && abs != "" && EndsWith(abs, "/" + t)
  }

  lemma {:induction false} ForwardSlashesAt(path: string, i: nat)
    requires i < |path|
    ensures ForwardSlashes(path)[i] == if path[i] == '\\' then '/' else path[i]
  {
    if i < |path| - 1 { ForwardSlashesAt(path[..|path| - 1], i); }
  }

  lemma {:induction false} StripTrailingIsExact(path: string)
    ensures StripTrailing(path) <= path
    ensures StripTrailing(path) == "" || StripTrailing(path)[|StripTrailing(path)| - 1] != '/'
    ensures forall i | |StripTrailing(path)| <= i < |path| :: path[i] == '/'
  {
    if path != [] && path[|path| - 1] == '/' {
      StripTrailingIsExact(path[..|path| - 1]);
      assert forall i | 0 <= i < |path| - 1 :: path[i] == path[..|path| - 1][i];
    }
  }

  /** Normalising turns every backslash and drops exactly the slashes at the end. */
  lemma NormalizeIsExact(path: string)
    ensures |Normalize(path)| <= |path|
    ensures forall i | 0 <= i < |Normalize(path)| :: Normalize(path)[i] == if path[i] == '\\' then '/' else path[i]
    ensures Normalize(path) == "" || Normalize(path)[|Normalize(path)| - 1] != '/'
    ensures forall i | |Normalize(path)| <= i < |path| :: path[i] == '/' || path[i] == '\\'
  {
    StripTrailingIsExact(ForwardSlashes(path));
    forall i | 0 <= i < |path| ensures ForwardSlashes(path)[i] == if path[i] == '\\' then '/' else path[i] {
      ForwardSlashesAt(path, i);
    }
  }

  /** A relative target matches a chunk stored with a relative path by equality alone; only a chunk stored without
      one is matched by the end of its absolute path. */
  lemma RelativeTarget(target: string, chunkRel: string, chunkAbs: string)
    requires Normalize(target) != "" && !IsAbsolute(Normalize(target))
    ensures Normalize(chunkRel) != "" ==>
              (RefersToSameFile(target, chunkRel, chunkAbs) <==>
                 Normalize(target) == Normalize(chunkRel) || Normalize(target) == Normalize(chunkAbs))
    ensures Normalize(chunkRel) == "" ==>
              (RefersToSameFile(target, chunkRel, chunkAbs) <==>
                 Normalize(target) == Normalize(chunkAbs) || EndsWith(Normalize(chunkAbs), "/" + Normalize(target)))
  {
  }

  /** A path as the tree walk reports it: relative, with forward slashes. */
  predicate Plain(path: string) {
    path != "" && Normalize(path) == path && !IsAbsolute(path)
  }

  /** A plain target removes exactly the chunks stored under that relative path, never
      those of a file whose path merely ends alike. */
  lemma PlainTargetIsExact(target: string, chunkRel: string, chunkAbs: string)
    requires Plain(target) && Plain(chunkRel) && IsAbsolute(Normalize(chunkAbs))
    ensures RefersToSameFile(target, chunkRel, chunkAbs) <==> target == chunkRel
  {
  }

  /** An absolute target is matched by suffix, so it can reach a second file: it refers to
      a chunk stored under a relative path exactly when it ends with that path. */
  lemma AbsoluteTargetIsSuffixMatch(target: string, chunkRel: string, chunkAbs: string)
    requires IsAbsolute(Normalize(target)) && Plain(chunkRel) && Normalize(target) != Normalize(chunkAbs)
    ensures RefersToSameFile(target, chunkRel, chunkAbs) <==> EndsWith(Normalize(target), "/" + chunkRel)
  {
    assert Normalize(target) != "";
  }

  /** Removing `/p/src/a` by its absolute path also removes the chunks of `/p/a`. */
  lemma AbsoluteTargetCanOverreach()
    ensures RefersToSameFile("/p/src/a", "a", "/p/a")
  {
    hide Normalize;
    var t := "/p/src/a";
    PathKept(t);
    PathKept("a");
    PathKept("/p/a");
    assert t[|t| - 2..] == "/a";
    assert EndsWith(t, "/" + "a");
  }

  lemma PathKept(path: string)
    requires forall i | 0 <= i < |path| :: path[i] != '\\'
    requires path != "" && path[|path| - 1] != '/'
    ensures Normalize(path) == path
  {
    SlashesKept(path);
  }

  lemma {:induction false} SlashesKept(path: string)
    requires forall i | 0 <= i < |path| :: path[i] != '\\'
    ensures ForwardSlashes(path) == path
  {
    if path != [] {
      SlashesKept(path[..|path| - 1]);
      assert path == path[..|path| - 1] + [path[|path| - 1]];
    }
  }
}
