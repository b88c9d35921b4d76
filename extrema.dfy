/** Turning the roots of a spline's derivative into tide events: the list of
    roots a classification test accepts, each paired with the curve's height. */
module Extrema {
  import opened Common

  /** `[(t, f(t)) for t in roots if keep(t)]`. */
  function Select(f: Time -> real, roots: seq<Time>, keep: Time -> bool): (r: seq<Measurement>)
    ensures |r| <= |roots|
    ensures forall m :: m in r <==> m.time in roots && keep(m.time) && m.height == f(m.time)
  {
    if roots == [] then []
    else
      var rest := Select(f, roots[1..], keep);
      assert forall t :: t in roots <==> t == roots[0] || t in roots[1..];
      (if keep(roots[0]) then [Measurement(roots[0], f(roots[0]))] else []) + rest
  }

  /** Events in strictly ascending time order. */
  predicate Chronological(ms: seq<Measurement>) {
    forall i, j :: 0 <= i < j < |ms| ==> ms[i].time < ms[j].time
  }

  /** Selection keeps the order of the roots: ascending roots give events in
      strictly ascending time order. */
  lemma {:induction false} SelectAscending(f: Time -> real, roots: seq<Time>, keep: Time -> bool)
    requires StrictlyAscending(roots)
    ensures Chronological(Select(f, roots, keep))
  {
    if roots != [] {
      var rest := Select(f, roots[1..], keep);
      SelectAscending(f, roots[1..], keep);
      if keep(roots[0]) {
        var e := Measurement(roots[0], f(roots[0]));
        assert Select(f, roots, keep) == [e] + rest;
        forall m | m in rest ensures roots[0] < m.time {
          assert m.time in roots[1..];
        }
        ChronologicalCons(e, rest);
      }
    }
  }

  lemma ChronologicalCons(e: Measurement, rest: seq<Measurement>)
    requires Chronological(rest)
    requires forall m :: m in rest ==> e.time < m.time
    ensures Chronological([e] + rest)
  {
    var r := [e] + rest;
    forall i, j | 0 <= i < j < |r| ensures r[i].time < r[j].time {
      assert r[j] == rest[j - 1];
      if i > 0 {
        assert r[i] == rest[i - 1];
      }
    }
  }

  /** Two tests that never accept the same root select disjoint events, so
      together they take at most all the roots. */
  lemma {:induction false} SelectDisjoint(f: Time -> real, roots: seq<Time>, p: Time -> bool, q: Time -> bool)
    requires forall t :: !(p(t) && q(t))
    ensures |Select(f, roots, p)| + |Select(f, roots, q)| <= |roots|
    ensures forall a, b :: a in Select(f, roots, p) && b in Select(f, roots, q) ==> a.time != b.time
  {
    if roots != [] {
      SelectDisjoint(f, roots[1..], p, q);
    }
  }

  lemma TimesCons(t: Time, h: real, rest: seq<Measurement>)
    ensures Times([Measurement(t, h)] + rest) == [t] + Times(rest)
  {
  }

  /** A test and its negation share the roots out exactly: every root goes to
      one of the two lists. */
  lemma SelectComplement(f: Time -> real, roots: seq<Time>, p: Time -> bool, q: Time -> bool)
    requires forall t :: q(t) == !p(t)
    ensures |Select(f, roots, p)| + |Select(f, roots, q)| == |roots|
    ensures multiset(Times(Select(f, roots, p))) + multiset(Times(Select(f, roots, q))) == multiset(roots)
  {
    SelectComplementLength(f, roots, p, q);
    SelectComplementTimes(f, roots, p, q);
  }

  lemma {:induction false} SelectComplementLength(f: Time -> real, roots: seq<Time>, p: Time -> bool, q: Time -> bool)
    requires forall t :: q(t) == !p(t)
    ensures |Select(f, roots, p)| + |Select(f, roots, q)| == |roots|
  {
    if roots != [] {
      SelectComplementLength(f, roots[1..], p, q);
    }
  }

  lemma {:induction false} SelectComplementTimes(f: Time -> real, roots: seq<Time>, p: Time -> bool, q: Time -> bool)
    requires forall t :: q(t) == !p(t)
    ensures multiset(Times(Select(f, roots, p))) + multiset(Times(Select(f, roots, q))) == multiset(roots)
  {
    if roots != [] {
      var t := roots[0];
      SelectComplementTimes(f, roots[1..], p, q);
      var rp, rq := Select(f, roots[1..], p), Select(f, roots[1..], q);
      var e := [Measurement(t, f(t))];
      assert multiset(roots) == multiset{t} + multiset(roots[1..]) by {
        assert roots == [t] + roots[1..];
      }
      if p(t) {
        assert Select(f, roots, p) == e + rp;
        TimesCons(t, f(t), rp);
        assert multiset(Times(Select(f, roots, p))) == multiset{t} + multiset(Times(rp));
        assert Select(f, roots, q) == rq;
      } else {
        assert Select(f, roots, q) == e + rq;
        TimesCons(t, f(t), rq);
        assert multiset(Times(Select(f, roots, q))) == multiset{t} + multiset(Times(rq));
        assert Select(f, roots, p) == rp;
      }
    }
  }
}
