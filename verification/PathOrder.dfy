/** Python's ordering of strings, and `sorted` on a set of them. */
module PathOrder {

  predicate AtMost(a: string, b: string) {
    if a == [] then true
    else if b == [] then false
    else if a[0] == b[0] then AtMost(a[1..], b[1..])
    else a[0] < b[0]
  }

  lemma {:induction false} Total(a: string, b: string)
    ensures AtMost(a, b) || AtMost(b, a)
  {
    if a != [] && b != [] && a[0] == b[0] {
      Total(a[1..], b[1..]);
    }
  }

  lemma {:induction false} Antisymmetric(a: string, b: string)
    requires AtMost(a, b) && AtMost(b, a)
    ensures a == b
  {
    if a != [] {
      Antisymmetric(a[1..], b[1..]);
      assert a == [a[0]] + a[1..] && b == [b[0]] + b[1..];
    }
  }

  lemma {:induction false} Transitive(a: string, b: string, c: string)
    requires AtMost(a, b) && AtMost(b, c)
    ensures AtMost(a, c)
  {
    if a != [] && a[0] == b[0] && b[0] == c[0] {
      Transitive(a[1..], b[1..], c[1..]);
    }
  }

  /** The order is lexicographic by code point: a prefix comes first, otherwise the first difference decides. */
  ghost predicate FirstDifference(a: string, b: string, i: nat) {
    i < |a| && i < |b| && (forall k | 0 <= k < i :: a[k] == b[k]) && a[i] < b[i]
  }

  lemma {:induction false} AtMostIsLexicographic(a: string, b: string)
    ensures AtMost(a, b) <==> a <= b || exists i: nat :: FirstDifference(a, b, i)
  {
    if a != [] && b != [] && a[0] == b[0] {
      AtMostIsLexicographic(a[1..], b[1..]);
      if i: nat :| FirstDifference(a[1..], b[1..], i) {
        assert forall k | 1 <= k <= i :: a[k] == a[1..][k - 1] && b[k] == b[1..][k - 1];
        assert FirstDifference(a, b, i + 1);
      }
      if i: nat :| FirstDifference(a, b, i) {
        assert FirstDifference(a[1..], b[1..], i - 1);
      }
      assert a == [a[0]] + a[1..] && b == [b[0]] + b[1..];
    } else if a != [] && b != [] {
      if a[0] < b[0] { assert FirstDifference(a, b, 0); }
    }
  }

  predicate IsLeast(m: string, s: set<string>) {
    m in s && forall x | x in s :: AtMost(m, x)
  }

  lemma {:induction false} LeastExists(s: set<string>) returns (m: string)
    requires s != {}
    ensures IsLeast(m, s)
  {
    var x :| x in s;
    if s == {x} {
      Total(x, x);
      m := x;
    } else {
      var rest := s - {x};
      m := LeastExists(rest);
      Total(x, m);
      Total(x, x);
      if AtMost(x, m) {
        forall y | y in s ensures AtMost(x, y) {
          if y in rest { Transitive(x, m, y); }
        }
        m := x;
      }
    }
  }

  lemma LeastIsUnique(s: set<string>)
    requires s != {}
    ensures exists m :: IsLeast(m, s)
    ensures forall a, b :: IsLeast(a, s) && IsLeast(b, s) ==> a == b
  {
    var m := LeastExists(s);
    forall a, b | IsLeast(a, s) && IsLeast(b, s) ensures a == b {
      Antisymmetric(a, b);
    }
  }

  function Least(s: set<string>): (m: string)
    requires s != {}
    ensures IsLeast(m, s)
  {
    LeastIsUnique(s);
    var m :| IsLeast(m, s);
    m
  }

  ghost predicate StrictlySorted(paths: seq<string>) {
    forall i, j | 0 <= i < j < |paths| :: AtMost(paths[i], paths[j]) && paths[i] != paths[j]
  }

  /** `sorted(s)`. */
  function SortedSet(s: set<string>): (r: seq<string>)
    ensures StrictlySorted(r)
    ensures forall x :: x in r <==> x in s
  {
    if s == {} then []
    else
      var m := Least(s);
      [m] + SortedSet(s - {m})
  }

  /** A strictly sorted list is determined by its members. */
  lemma {:induction false} SortedListIsUnique(a: seq<string>, b: seq<string>)
    requires StrictlySorted(a) && StrictlySorted(b)
    requires forall x :: x in a <==> x in b
    ensures a == b
  {
    assert |b| > 0 ==> b[0] in b;
    if a != [] {
      assert a[0] in b;
      assert b != [] && b[0] in a;
      Antisymmetric(a[0], b[0]) by {
        FirstIsLeast(a, b[0]);
        FirstIsLeast(b, a[0]);
      }
      forall x ensures x in a[1..] <==> x in b[1..] {
        TailMembers(a, x);
        TailMembers(b, x);
      }
      SortedListIsUnique(a[1..], b[1..]);
      assert a == [a[0]] + a[1..] && b == [b[0]] + b[1..];
    }
  }

  lemma FirstIsLeast(a: seq<string>, x: string)
    requires StrictlySorted(a) && x in a
    ensures AtMost(a[0], x)
  {
    Total(x, x);
    var i :| 0 <= i < |a| && a[i] == x;
  }

  lemma TailMembers(a: seq<string>, x: string)
    requires StrictlySorted(a) && a != []
    ensures x in a[1..] <==> x in a && x != a[0]
  {
    assert a == [a[0]] + a[1..];
    if x in a[1..] {
      var i :| 0 <= i < |a[1..]| && a[1..][i] == x;
      assert a[i + 1] == x;
    }
  }
}
