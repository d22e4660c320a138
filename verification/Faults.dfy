/** Plans that say in advance what becomes of each fallible action, and how they are used up. */
module Faults {
  /** What becomes of one durable change: it lands, an I/O error strikes before it, or after it. */
  datatype Fate = Lands | Raises | LandsAndRaises

  function FateOf(plan: seq<Fate>): Fate {
    if plan == [] then Lands else plan[0]
  }

  function Rest(plan: seq<Fate>): seq<Fate> {
    if plan == [] then [] else plan[1..]
  }

  function Failures(plan: seq<Fate>): nat {
    if plan == [] then 0 else (if plan[0] == Lands then 0 else 1) + Failures(plan[1..])
  }

  /** The next `n` durable changes land without an error. */
  predicate Clear(plan: seq<Fate>, n: nat) {
    forall i | 0 <= i < n && i < |plan| :: plan[i] == Lands
  }

  function Skip(plan: seq<Fate>, n: nat): seq<Fate> {
    if n < |plan| then plan[n..] else []
  }

  /** An operation of `n` durable changes, each made only if those before it succeeded. */
  predicate Took(plan: seq<Fate>, plan': seq<Fate>, n: nat, ok: bool) {
    (ok <==> Clear(plan, n)) && (ok ==> plan' == Skip(plan, n))
  }

  /** The `n` changes to come succeed, and the one after them lands, whether or not an error follows. */
  predicate Reaches(plan: seq<Fate>, n: nat) {
    Clear(plan, n) && FateOf(Skip(plan, n)) != Raises
  }

  lemma OneChange(plan: seq<Fate>)
    ensures Took(plan, Rest(plan), 1, FateOf(plan) == Lands)
    ensures Reaches(plan, 0) <==> FateOf(plan) != Raises
  {
    assert plan != [] ==> plan[0..] == plan;
  }

  lemma NoChange(plan: seq<Fate>)
    ensures Took(plan, plan, 0, true)
  {
    assert plan != [] ==> plan[0..] == plan;
  }

  lemma ThenTook(p: seq<Fate>, q: seq<Fate>, r: seq<Fate>, a: nat, b: nat, ok: bool)
    requires Took(p, q, a, true) && Took(q, r, b, ok)
    ensures Took(p, r, a + b, ok)
  {
    SkippedAhead(p, a, b);
  }

  lemma SkippedAhead(p: seq<Fate>, a: nat, b: nat)
    requires Clear(p, a)
    ensures Clear(p, a + b) <==> Clear(Skip(p, a), b)
    ensures Skip(Skip(p, a), b) == Skip(p, a + b)
  {
    if Clear(p, a + b) {
      forall i | 0 <= i < b && i < |Skip(p, a)| ensures Skip(p, a)[i] == Lands {
        assert Skip(p, a)[i] == p[a + i];
      }
    }
    if Clear(Skip(p, a), b) {
      forall i | 0 <= i < a + b && i < |p| ensures p[i] == Lands {
        assert i >= a ==> p[i] == Skip(p, a)[i - a];
      }
    }
  }

  /** Once a change has failed, neither the rest of the operation nor anything after it is made. */
  lemma FailedTook(p: seq<Fate>, q: seq<Fate>, r: seq<Fate>, a: nat, n: nat)
    requires Took(p, q, a, false) && a <= n
    ensures Took(p, r, n, false) && !Reaches(p, n)
  {
  }

  lemma ThenReaches(p: seq<Fate>, q: seq<Fate>, a: nat, n: nat)
    requires Took(p, q, a, true)
    ensures Reaches(p, a + n) <==> Reaches(q, n)
  {
    SkippedAhead(p, a, n);
  }

  /** A plan whose change number `k` alone has the given fate. */
  function FailingAt(k: nat, fate: Fate): (plan: seq<Fate>)
    requires fate != Lands
    ensures Clear(plan, k) && |plan| == k + 1 && FateOf(Skip(plan, k)) == fate
    ensures !Clear(plan, k + 1) && Failures(plan) == 1
  {
    if k == 0 then [fate] else
      var later := FailingAt(k - 1, fate);
      var plan := [Lands] + later;
      assert plan[k..] == later[k - 1..];
      plan
  }
}
