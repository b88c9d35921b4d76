/** List pipelines over the station registry: Python's string order, a stable
    sort by name, filtering, and a first-match search. */
module Registry {
  import opened Common

  /** Python's `a <= b` on strings: code point by code point, a proper prefix
      first. */
  predicate NameLe(a: string, b: string) {
    if a == [] then true
    else if b == [] then false
    else if a[0] != b[0] then a[0] < b[0]
    else NameLe(a[1..], b[1..])
  }

  lemma {:induction false} NameLeTotal(a: string, b: string)
    ensures NameLe(a, b) || NameLe(b, a)
  {
    if a != [] && b != [] && a[0] == b[0] {
      NameLeTotal(a[1..], b[1..]);
    }
  }

  lemma {:induction false} NameLeTransitive(a: string, b: string, c: string)
    requires NameLe(a, b) && NameLe(b, c)
    ensures NameLe(a, c)
  {
    if a != [] && b != [] && c != [] && a[0] == b[0] && b[0] == c[0] {
      NameLeTransitive(a[1..], b[1..], c[1..]);
    }
  }

  predicate SortedByName(s: seq<Station>) {
    forall i, j :: 0 <= i < j < |s| ==> NameLe(s[i].name, s[j].name)
  }

  /** Insert `x` before the first station whose name is not smaller. */
  function InsertByName(x: Station, s: seq<Station>): (r: seq<Station>)
    requires SortedByName(s)
    ensures SortedByName(r)
    ensures multiset(r) == multiset(s) + multiset{x}
  {
    if s == [] then [x]
    else if NameLe(x.name, s[0].name) then
      forall y | y in s ensures NameLe(x.name, y.name) {
        if y != s[0] {
          var k :| 0 <= k < |s| && s[k] == y;
          NameLeTransitive(x.name, s[0].name, y.name);
        }
      }
      ConsSorted(x, s);
      [x] + s
    else
      var rest := InsertByName(x, s[1..]);
      NameLeTotal(x.name, s[0].name);
      assert s == [s[0]] + s[1..];
      forall y | y in rest ensures NameLe(s[0].name, y.name) {
        assert y in multiset(rest);
        if y != x {
          assert y in s[1..];
        }
      }
      ConsSorted(s[0], rest);
      [s[0]] + rest
  }

  /** A station no later by name than every station of a sorted list can go
      in front of it. */
  lemma ConsSorted(h: Station, rest: seq<Station>)
    requires SortedByName(rest)
    requires forall y :: y in rest ==> NameLe(h.name, y.name)
    ensures SortedByName([h] + rest)
  {
    var r := [h] + rest;
    forall i, j | 0 <= i < j < |r| ensures NameLe(r[i].name, r[j].name) {
      assert r[j] == rest[j - 1] && r[j] in rest;
      if i > 0 { assert r[i] == rest[i - 1]; }
    }
  }

  /** `sorted(stations, key=lambda s: s.name)`. */
  function SortByName(s: seq<Station>): (r: seq<Station>)
    ensures SortedByName(r)
    ensures multiset(r) == multiset(s)
  {
    if s == [] then []
    else
      assert s == [s[0]] + s[1..];
      InsertByName(s[0], SortByName(s[1..]))
  }

  /** A station's name is the given one. */
  function Named(n: string): Station -> bool {
    (s: Station) => s.name == n
  }

  lemma {:induction false} NameLeReflexive(a: string)
    ensures NameLe(a, a)
  {
    if a != [] {
      NameLeReflexive(a[1..]);
    }
  }

  /** Inserting keeps the stations of every name in order: `x` goes in front
      of the stations already there with its name. */
  lemma {:induction false} InsertByNameStable(x: Station, t: seq<Station>, n: string)
    requires SortedByName(t)
    ensures Filter(Named(n), InsertByName(x, t)) == (if x.name == n then [x] else []) + Filter(Named(n), t)
  {
    var p := Named(n);
    if t == [] {
      FilterCons(p, x, []);
    } else if NameLe(x.name, t[0].name) {
      InsertFront(x, t);
      FilterCons(p, x, t);
    } else {
      NameLeReflexive(x.name);
      InsertSkip(x, t);
      InsertByNameStable(x, t[1..], n);
      assert t == [t[0]] + t[1..];
      FilterSkip(p, t[0], InsertByName(x, t[1..]), t[1..], if x.name == n then [x] else []);
    }
  }

  /** A station that the filter drops, or that passes with nothing inserted,
      keeps the filtered lists related. */
  lemma FilterSkip(p: Station -> bool, h: Station, rest: seq<Station>, t: seq<Station>, pre: seq<Station>)
    requires pre == [] || !p(h)
    requires Filter(p, rest) == pre + Filter(p, t)
    ensures Filter(p, [h] + rest) == pre + Filter(p, [h] + t)
  {
    FilterCons(p, h, rest);
    FilterCons(p, h, t);
    if p(h) {
      assert pre + Filter(p, t) == Filter(p, t);
    } else {
      assert [] + Filter(p, rest) == Filter(p, rest);
      assert [] + Filter(p, t) == Filter(p, t);
    }
  }

  lemma InsertFront(x: Station, t: seq<Station>)
    requires SortedByName(t) && t != [] && NameLe(x.name, t[0].name)
    ensures InsertByName(x, t) == [x] + t
  {
  }

  lemma InsertSkip(x: Station, t: seq<Station>)
    requires SortedByName(t) && t != [] && !NameLe(x.name, t[0].name)
    ensures SortedByName(t[1..])
    ensures InsertByName(x, t) == [t[0]] + InsertByName(x, t[1..])
  {
    SortedTail(t);
  }

  lemma SortedTail(t: seq<Station>)
    requires SortedByName(t) && t != []
    ensures SortedByName(t[1..])
  {
    forall i, j | 0 <= i < j < |t[1..]| ensures NameLe(t[1..][i].name, t[1..][j].name) {
      assert t[1..][i] == t[i + 1] && t[1..][j] == t[j + 1];
    }
  }

  /** Filtering a list with a first element. */
  lemma FilterCons(p: Station -> bool, a: Station, t: seq<Station>)
    ensures Filter(p, [a] + t) == (if p(a) then [a] else []) + Filter(p, t)
  {
    assert ([a] + t)[0] == a && ([a] + t)[1..] == t;
  }

  /** `sorted` is stable: the stations of each name come out in their input
      order. */
  lemma {:induction false} SortByNameStable(s: seq<Station>, n: string)
    ensures Filter(Named(n), SortByName(s)) == Filter(Named(n), s)
  {
    if s != [] {
      SortByNameStable(s[1..], n);
      InsertByNameStable(s[0], SortByName(s[1..]), n);
    }
  }

  /** `list(filter(p, s))`. */
  function Filter(p: Station -> bool, s: seq<Station>): (r: seq<Station>)
    ensures forall x :: x in r ==> p(x)
  {
    if s == [] then []
    else (if p(s[0]) then [s[0]] else []) + Filter(p, s[1..])
  }

  lemma {:induction false} FilterCount(p: Station -> bool, s: seq<Station>, x: Station)
    ensures multiset(Filter(p, s))[x] == if p(x) then multiset(s)[x] else 0
  {
    if s != [] {
      FilterCount(p, s[1..], x);
      assert s == [s[0]] + s[1..];
    }
  }

  /** Filtering commutes with reordering: filtering two permutations of a
      list gives permutations of each other. */
  lemma FilterPermutation(p: Station -> bool, s: seq<Station>, t: seq<Station>)
    requires multiset(s) == multiset(t)
    ensures multiset(Filter(p, s)) == multiset(Filter(p, t))
  {
    forall x ensures multiset(Filter(p, s))[x] == multiset(Filter(p, t))[x] {
      FilterCount(p, s, x);
      FilterCount(p, t, x);
    }
  }

  /** Filtering keeps the order of what it keeps. */
  lemma {:induction false} FilterSorted(p: Station -> bool, s: seq<Station>)
    requires SortedByName(s)
    ensures SortedByName(Filter(p, s))
  {
    if s != [] {
      FilterSorted(p, s[1..]);
      var rest := Filter(p, s[1..]);
      if p(s[0]) {
        forall y | y in rest ensures NameLe(s[0].name, y.name) {
          FilterCount(p, s[1..], y);
          assert y in multiset(rest);
          var k :| 0 <= k < |s[1..]| && s[1..][k] == y;
          assert s[k + 1] == y;
        }
        ConsSorted(s[0], rest);
        assert Filter(p, s) == [s[0]] + rest;
      }
    }
  }

  /** Two filters in a row are one filter by the conjunction. */
  lemma {:induction false} FilterFilter(p: Station -> bool, q: Station -> bool, both: Station -> bool, s: seq<Station>)
    requires forall x :: both(x) == (p(x) && q(x))
    ensures Filter(q, Filter(p, s)) == Filter(both, s)
  {
    if s != [] {
      FilterFilter(p, q, both, s[1..]);
      var rest := Filter(p, s[1..]);
      if p(s[0]) {
        var x := [s[0]] + rest;
        assert Filter(p, s) == x;
        assert x[0] == s[0] && x[1..] == rest;
        assert Filter(q, x) == (if q(s[0]) then [s[0]] else []) + Filter(q, rest);
      } else {
        assert Filter(p, s) == rest;
      }
    }
  }

  /** The index the early-return loop `for s in stations: if matches(s): return s`
      stops at, or None when it falls off the end. */
  function FirstMatch(stations: seq<Station>, matches: Station -> bool): (r: Option<nat>)
    ensures r.None? <==> forall i :: 0 <= i < |stations| ==> !matches(stations[i])
    ensures r.Some? ==> r.value < |stations| && matches(stations[r.value])
    ensures r.Some? ==> forall i :: 0 <= i < r.value ==> !matches(stations[i])
  {
    if stations == [] then None
    else if matches(stations[0]) then Some(0)
    else
      match FirstMatch(stations[1..], matches)
      case None =>
        assert forall i :: 1 <= i < |stations| ==> stations[i] == stations[1..][i - 1];
        None
      case Some(k) =>
        assert forall i :: 1 <= i <= k + 1 ==> stations[i] == stations[1..][i - 1];
        Some(k + 1)
  }
}
