/** The byte formats behind the dirty fingerprint and the index generation, and what can be
    recovered from them. SHA-256 is taken to be injective, so the bytes hashed stand for
    their digest. */
module Frames {
  import opened Wrappers

  type Byte = x: int | 0 <= x < 256
  type Bytes = seq<Byte>

  const NUL: Byte := 0

  /** `str.encode("ascii")`. */
  function Ascii(s: string): (b: Bytes)
    requires forall i | 0 <= i < |s| :: s[i] as int < 128
    ensures |b| == |s| && forall i | 0 <= i < |s| :: b[i] == s[i] as int
  {
    seq(|s|, i requires 0 <= i < |s| => s[i] as int)
  }

  function FirstNul(s: Bytes): (at: Option<nat>)
    ensures at.None? ==> NUL !in s
    ensures at.Some? ==> at.value < |s| && s[at.value] == NUL && NUL !in s[..at.value]
  {
    if s == [] then None
    else if s[0] == NUL then Some(0)
    else
      match FirstNul(s[1..])
      case None => None
      case Some(i) =>
        assert s[..i + 1] == [s[0]] + s[1..][..i];
        Some(i + 1)
  }

  lemma {:induction false} FirstNulAt(a: Bytes, b: Bytes)
    requires NUL !in a
    ensures FirstNul(a + [NUL] + b) == Some(|a|)
  {
    if a != [] {
      assert a[0] in a;
      FirstNulAt(a[1..], b);
      assert (a + [NUL] + b)[1..] == a[1..] + [NUL] + b;
    }
  }

  // ---------------------------------------------------------------------------
  // Lengths
  // ---------------------------------------------------------------------------

  function Pow256(k: nat): (p: nat)
    ensures p >= 1
  {
    if k == 0 then 1 else 256 * Pow256(k - 1)
  }

  /** `int.to_bytes(k, "big")`. */
  function BigEndian(n: nat, k: nat): (b: Bytes)
    ensures |b| == k
  {
    if k == 0 then [] else BigEndian(n / 256, k - 1) + [n % 256]
  }

  function Number(b: Bytes): nat {
    if b == [] then 0 else 256 * Number(b[..|b| - 1]) + b[|b| - 1]
  }

  lemma {:induction false} NumberRoundTrip(n: nat, k: nat)
    requires n < Pow256(k)
    ensures Number(BigEndian(n, k)) == n
  {
    if k > 0 {
      NumberRoundTrip(n / 256, k - 1);
      assert BigEndian(n, k)[..k - 1] == BigEndian(n / 256, k - 1);
    }
  }

  /** The most significant byte comes first. */
  lemma {:induction false} BigEndianAt(n: nat, k: nat, i: nat)
    requires i < k
    ensures BigEndian(n, k)[i] == n / Pow256(k - 1 - i) % 256
  {
    if i < k - 1 {
      BigEndianAt(n / 256, k - 1, i);
      DivideTwice(n, Pow256(k - 2 - i));
    }
  }

  lemma DivideTwice(n: nat, p: nat)
    requires p >= 1
    ensures n / 256 / p == n / (256 * p)
  {
    var a, b := n / 256, n / 256 / p;
    var r, q := n % 256, n / 256 % p;
    assert n == 256 * a + r && a == b * p + q;
    var rest := 256 * q + r;
    assert 256 * a == b * (256 * p) + 256 * q;
    assert n == b * (256 * p) + rest && 0 <= rest < 256 * p;
    QuotientIs(n, 256 * p, b, rest);
  }

  lemma QuotientIs(n: nat, d: nat, b: nat, rest: nat)
    requires d >= 1 && n == b * d + rest && rest < d
    ensures n / d == b
  {
    var q, r := n / d, n % d;
    assert n == q * d + r;
    OneQuotient(q, r, b, rest, d);
  }

  lemma OneQuotient(q: nat, r: nat, b: nat, rest: nat, d: nat)
    requires r < d && rest < d && q * d + r == b * d + rest
    ensures q == b
  {
    assert (q - b) * d == q * d - b * d && (b - q) * d == b * d - q * d;
    if q != b { AtLeastOne(if q > b then q - b else b - q, d); }
  }

  lemma AtLeastOne(k: nat, d: nat)
    requires k >= 1
    ensures k * d >= d
  {
  }

  lemma {:induction false} BytesRoundTrip(b: Bytes)
    ensures Number(b) < Pow256(|b|) && BigEndian(Number(b), |b|) == b
  {
    if b != [] {
      var less := b[..|b| - 1];
      BytesRoundTrip(less);
      assert Number(b) / 256 == Number(less) && Number(b) % 256 == b[|b| - 1];
      assert b == less + [b[|b| - 1]];
    }
  }

  // ---------------------------------------------------------------------------
  // Frames
  // ---------------------------------------------------------------------------

  datatype Frame = Frame(name: Bytes, payload: Bytes)

  ghost predicate Framable(f: Frame) {
    NUL !in f.name && |f.payload| < Pow256(8)
  }

  /** `_frame`. */
  function Encode(f: Frame): Bytes {
    f.name + [NUL] + BigEndian(|f.payload|, 8) + f.payload
  }

  function Stream(frames: seq<Frame>): Bytes {
    if frames == [] then [] else Encode(frames[0]) + Stream(frames[1..])
  }

  lemma {:induction false} StreamSnoc(frames: seq<Frame>, f: Frame)
    ensures Stream(frames + [f]) == Stream(frames) + Encode(f)
  {
    if frames == [] {
      assert frames + [f] == [f];
    } else {
      assert (frames + [f])[1..] == frames[1..] + [f];
      StreamSnoc(frames[1..], f);
    }
  }

  function ParseFrame(s: Bytes): (r: Option<(Frame, Bytes)>)
    ensures r.Some? ==> |r.value.1| < |s|
  {
    match FirstNul(s)
    case None => None
    case Some(i) =>
      if |s| < i + 9 then None
      else
        var length := Number(s[i + 1..i + 9]);
        if |s| < i + 9 + length then None
        else Some((Frame(s[..i], s[i + 9..i + 9 + length]), s[i + 9 + length..]))
  }

  function Parse(s: Bytes): Option<seq<Frame>>
    decreases |s|
  {
    if s == [] then Some([])
    else
      match ParseFrame(s)
      case None => None
      case Some((frame, rest)) =>
        match Parse(rest)
        case None => None
        case Some(frames) => Some([frame] + frames)
  }

  lemma ParseFirst(f: Frame, rest: Bytes)
    requires Framable(f)
    ensures ParseFrame(Encode(f) + rest) == Some((f, rest))
  {
    var length := BigEndian(|f.payload|, 8);
    FirstNulAt(f.name, length + f.payload + rest);
    assert Encode(f) + rest == f.name + [NUL] + (length + f.payload + rest);
    NumberRoundTrip(|f.payload|, 8);
    Slices(f.name + [NUL], length, f.payload, rest);
    assert Encode(f) + rest == (f.name + [NUL]) + length + f.payload + rest;
    assert (Encode(f) + rest)[..|f.name|] == f.name;
  }

  lemma Slices(a: Bytes, b: Bytes, c: Bytes, d: Bytes)
    ensures var s := a + b + c + d;
            && |s| == |a| + |b| + |c| + |d|
            && s[|a|..|a| + |b|] == b
            && s[|a| + |b|..|a| + |b| + |c|] == c
            && s[|a| + |b| + |c|..] == d
  {
  }

  /** Any list of frames is recovered from the bytes it feeds to the digest. */
  lemma {:induction false} StreamRoundTrip(frames: seq<Frame>)
    requires forall f | f in frames :: Framable(f)
    ensures Parse(Stream(frames)) == Some(frames)
  {
    if frames != [] {
      assert frames[0] in frames;
      StreamRoundTrip(frames[1..]);
      ParseFirst(frames[0], Stream(frames[1..]));
      assert [frames[0]] + frames[1..] == frames;
    }
  }

  /** And the parser accepts nothing else: what it accepts is the stream of what it returns. */
  lemma {:induction false} ParseIsExact(s: Bytes)
    ensures Parse(s).Some? ==>
      Stream(Parse(s).value) == s && forall f | f in Parse(s).value :: Framable(f)
    decreases |s|
  {
    if s != [] && ParseFrame(s).Some? {
      var (frame, rest) := ParseFrame(s).value;
      ParseIsExact(rest);
      ParsedFrame(s);
    }
  }

  lemma ParsedFrame(s: Bytes)
    requires ParseFrame(s).Some?
    ensures var (frame, rest) := ParseFrame(s).value; Framable(frame) && Encode(frame) + rest == s
  {
    var i := FirstNul(s).value;
    var field := s[i + 1..i + 9];
    BytesRoundTrip(field);
    Parts(s, i, i + 9, i + 9 + Number(field));
  }

  lemma Parts(s: Bytes, i: nat, j: nat, k: nat)
    requires i < j <= k <= |s|
    ensures s[..i] + [s[i]] + s[i + 1..j] + s[j..k] + s[k..] == s
  {
  }

  lemma StreamsDiffer(a: seq<Frame>, b: seq<Frame>)
    requires forall f | f in a :: Framable(f)
    requires forall f | f in b :: Framable(f)
    requires Stream(a) == Stream(b)
    ensures a == b
  {
    StreamRoundTrip(a);
    StreamRoundTrip(b);
  }

  // ---------------------------------------------------------------------------
  // Payloads of several fields
  // ---------------------------------------------------------------------------

  /** Fields with NULs between them. */
  function Join(first: Bytes, rest: Bytes): Bytes {
    first + [NUL] + rest
  }

  function Cut(s: Bytes): Option<(Bytes, Bytes)> {
    match FirstNul(s)
    case None => None
    case Some(i) => Some((s[..i], s[i + 1..]))
  }

  lemma CutUndoesJoin(first: Bytes, rest: Bytes)
    requires NUL !in first
    ensures Cut(Join(first, rest)) == Some((first, rest))
  {
    FirstNulAt(first, rest);
    var s := Join(first, rest);
    assert s[..|first|] == first && s[|first| + 1..] == rest;
  }

  datatype Kind = Missing | Symlink | File

  function KindName(k: Kind): Bytes {
    match k
    case Missing => Ascii("missing")
    case Symlink => Ascii("symlink")
    case File => Ascii("file")
  }

  datatype Untracked = Untracked(path: Bytes, kind: Kind, digest: Bytes)

  /** `_untracked_payload`. */
  function UntrackedPayload(u: Untracked): Bytes {
    Join(u.path, Join(KindName(u.kind), u.digest))
  }

  function ReadUntracked(s: Bytes): Option<Untracked> {
    match Cut(s)
    case None => None
    case Some((path, rest)) =>
      match Cut(rest)
      case None => None
      case Some((name, digest)) =>
        if name == KindName(Missing) then Some(Untracked(path, Missing, digest))
        else if name == KindName(Symlink) then Some(Untracked(path, Symlink, digest))
        else if name == KindName(File) then Some(Untracked(path, File, digest))
        else None
  }

  lemma KindNames(k: Kind)
    ensures NUL !in KindName(k)
    ensures KindName(Missing) != KindName(Symlink)
    ensures |KindName(File)| == 4 && |KindName(Missing)| == |KindName(Symlink)| == 7
  {
    assert KindName(Missing)[0] == 'm' as int && KindName(Symlink)[0] == 's' as int;
  }

  /** Path, kind and digest are recovered, whatever bytes the digest has. */
  lemma UntrackedRoundTrip(u: Untracked)
    requires NUL !in u.path
    ensures ReadUntracked(UntrackedPayload(u)) == Some(u)
  {
    CutUndoesJoin(u.path, Join(KindName(u.kind), u.digest));
    KindNames(u.kind);
    CutUndoesJoin(KindName(u.kind), u.digest);
  }

  datatype Submodule = Submodule(path: Bytes, expected: Bytes, current: Bytes, fingerprint: Bytes)

  /** `_submodule_payload`. */
  function SubmodulePayload(m: Submodule): Bytes {
    m.path + [NUL] + m.expected + [NUL] + m.current + [NUL] + m.fingerprint
  }

  function ReadSubmodule(s: Bytes): Option<Submodule> {
    match Cut(s)
    case None => None
    case Some((path, rest)) =>
      match Cut(rest)
      case None => None
      case Some((expected, more)) =>
        match Cut(more)
        case None => None
        case Some((current, fingerprint)) => Some(Submodule(path, expected, current, fingerprint))
  }

  ghost predicate NamesSubmodule(m: Submodule) {
    NUL !in m.path && NUL !in m.expected && NUL !in m.current
  }

  lemma SubmoduleRoundTrip(m: Submodule)
    requires NamesSubmodule(m)
    ensures ReadSubmodule(SubmodulePayload(m)) == Some(m)
  {
    var tail := Join(m.current, m.fingerprint);
    assert SubmodulePayload(m) == Join(m.path, Join(m.expected, tail));
    CutUndoesJoin(m.path, Join(m.expected, tail));
    CutUndoesJoin(m.expected, tail);
    CutUndoesJoin(m.current, m.fingerprint);
  }
}
