/** Cutting a time-ordered sample list at the high-tide times
    (`split_tides_by_datetimes`; both repository copies are the same code). */
module Partition {
  import opened Common

  /** Python's `s[lo:hi]` for in-range bounds: empty when `lo > hi`. */
  function Slice<T>(s: seq<T>, lo: nat, hi: nat): seq<T>
    requires lo <= |s| && hi <= |s|
  {
    if lo <= hi then s[lo..hi] else []
  }

  /** The first index whose sample is strictly after `dt`, or `|tides|` when
      there is none. */
  function CutIndex(tides: seq<Measurement>, dt: Time): (idx: nat)
    ensures idx <= |tides|
    ensures forall j :: 0 <= j < idx ==> tides[j].time <= dt
    ensures idx < |tides| ==> tides[idx].time > dt
  {
    if tides == [] || tides[0].time > dt then 0
    else
      var rest := CutIndex(tides[1..], dt);
      assert forall j :: 1 <= j < 1 + rest ==> tides[j] == tides[1..][j - 1];
      1 + rest
  }

  /** The characterisation of `CutIndex` determines it. */
  lemma CutIndexUnique(tides: seq<Measurement>, dt: Time, idx: nat)
    requires idx <= |tides|
    requires forall j :: 0 <= j < idx ==> tides[j].time <= dt
    requires idx < |tides| ==> tides[idx].time > dt
    ensures idx == CutIndex(tides, dt)
  {
  }

  /** A later cut time never cuts earlier. */
  lemma CutIndexMonotone(tides: seq<Measurement>, d1: Time, d2: Time)
    requires d1 <= d2
    ensures CutIndex(tides, d1) <= CutIndex(tides, d2)
  {
  }

  /** The partitions produced from the remaining cut times, the previous cut
      being at `prev`: cuts equal to the previous one are skipped. */
  function SplitFrom(tides: seq<Measurement>, dts: seq<Time>, prev: nat): (parts: seq<seq<Measurement>>)
    requires prev <= |tides|
    ensures |parts| >= 1
    decreases |dts|
  {
    if dts == [] then [tides[prev..]]
    else
      var idx := CutIndex(tides, dts[0]);
      if idx == prev then SplitFrom(tides, dts[1..], prev)
      else [Slice(tides, prev, idx)] + SplitFrom(tides, dts[1..], idx)
  }

  /** What `split_tides_by_datetimes(tides, datetimes)` returns. */
  function Split(tides: seq<Measurement>, dts: seq<Time>): (parts: seq<seq<Measurement>>)
    ensures |parts| >= 1
    ensures dts == [] ==> parts == [tides]
  {
    SplitFrom(tides, dts, 0)
  }

  function Concat<T>(parts: seq<seq<T>>): seq<T> {
    if parts == [] then [] else parts[0] + Concat(parts[1..])
  }

  lemma ConcatCons<T>(a: seq<T>, rest: seq<seq<T>>)
    ensures Concat([a] + rest) == a + Concat(rest)
  {
    assert ([a] + rest)[0] == a;
    assert ([a] + rest)[1..] == rest;
  }

  /** The set of cut indices of a list of cut times. */
  function CutSet(tides: seq<Measurement>, dts: seq<Time>): set<nat> {
    if dts == [] then {} else {CutIndex(tides, dts[0])} + CutSet(tides, dts[1..])
  }

  lemma {:induction false} CutSetAtLeast(tides: seq<Measurement>, dts: seq<Time>, m: nat)
    requires forall i :: 0 <= i < |dts| ==> m <= CutIndex(tides, dts[i])
    ensures forall x :: x in CutSet(tides, dts) ==> m <= x
  {
    if dts != [] {
      CutSetAtLeast(tides, dts[1..], m);
    }
  }

  /** With ascending cut times every later cut is at or after the first one. */
  lemma LaterCutsAtLeast(tides: seq<Measurement>, dts: seq<Time>)
    requires Ascending(dts) && dts != []
    ensures Ascending(dts[1..])
    ensures forall i :: 0 <= i < |dts[1..]| ==> CutIndex(tides, dts[0]) <= CutIndex(tides, dts[1..][i])
  {
    forall i | 0 <= i < |dts[1..]|
      ensures CutIndex(tides, dts[0]) <= CutIndex(tides, dts[1..][i])
    {
      CutIndexMonotone(tides, dts[0], dts[1..][i]);
    }
  }

  lemma {:induction false} SplitFromConcat(tides: seq<Measurement>, dts: seq<Time>, prev: nat)
    requires prev <= |tides| && Ascending(dts)
    requires forall i :: 0 <= i < |dts| ==> prev <= CutIndex(tides, dts[i])
    ensures Concat(SplitFrom(tides, dts, prev)) == tides[prev..]
    decreases |dts|
  {
    if dts == [] {
      ConcatCons(tides[prev..], []);
    } else {
      var idx := CutIndex(tides, dts[0]);
      LaterCutsAtLeast(tides, dts);
      if idx == prev {
        SplitFromConcat(tides, dts[1..], prev);
      } else {
        SplitFromConcat(tides, dts[1..], idx);
        ConcatCons(tides[prev..idx], SplitFrom(tides, dts[1..], idx));
        assert tides[prev..idx] + tides[idx..] == tides[prev..];
      }
    }
  }

  /** For ascending cut times, concatenating the partitions gives the input back. */
  lemma SplitConcat(tides: seq<Measurement>, dts: seq<Time>)
    requires Ascending(dts)
    ensures Concat(Split(tides, dts)) == tides
  {
    SplitFromConcat(tides, dts, 0);
  }

  /** Every partition but the last has at least one sample. */
  predicate OnlyLastEmpty<T>(parts: seq<seq<T>>) {
    forall j :: 0 <= j < |parts| - 1 ==> parts[j] != []
  }

  lemma {:induction false} SplitFromNonEmpty(tides: seq<Measurement>, dts: seq<Time>, prev: nat)
    requires prev <= |tides| && Ascending(dts)
    requires forall i :: 0 <= i < |dts| ==> prev <= CutIndex(tides, dts[i])
    ensures OnlyLastEmpty(SplitFrom(tides, dts, prev))
    decreases |dts|
  {
    if dts != [] {
      var idx := CutIndex(tides, dts[0]);
      LaterCutsAtLeast(tides, dts);
      if idx == prev {
        SplitFromNonEmpty(tides, dts[1..], prev);
        assert SplitFrom(tides, dts, prev) == SplitFrom(tides, dts[1..], prev);
      } else {
        SplitFromNonEmpty(tides, dts[1..], idx);
        var rest := SplitFrom(tides, dts[1..], idx);
        var parts := [tides[prev..idx]] + rest;
        assert parts == SplitFrom(tides, dts, prev);
        assert prev < idx;
        forall j | 0 <= j < |parts| - 1 ensures parts[j] != [] {
          if j == 0 {
            assert |parts[0]| == idx - prev;
          } else {
            assert parts[j] == rest[j - 1];
          }
        }
      }
    }
  }

  /** For ascending cut times only the final partition can be empty. */
  lemma SplitOnlyLastEmpty(tides: seq<Measurement>, dts: seq<Time>)
    requires Ascending(dts)
    ensures OnlyLastEmpty(Split(tides, dts))
  {
    SplitFromNonEmpty(tides, dts, 0);
  }

  lemma {:induction false} SplitFromCount(tides: seq<Measurement>, dts: seq<Time>, prev: nat)
    requires prev <= |tides| && Ascending(dts)
    requires forall i :: 0 <= i < |dts| ==> prev <= CutIndex(tides, dts[i])
    ensures |SplitFrom(tides, dts, prev)| == 1 + |CutSet(tides, dts) - {prev}|
    decreases |dts|
  {
    if dts != [] {
      var idx := CutIndex(tides, dts[0]);
      var later := CutSet(tides, dts[1..]);
      LaterCutsAtLeast(tides, dts);
      if idx == prev {
        SplitFromCount(tides, dts[1..], prev);
        assert CutSet(tides, dts) - {prev} == later - {prev};
      } else {
        SplitFromCount(tides, dts[1..], idx);
        CutSetAtLeast(tides, dts[1..], idx);
        assert prev !in later;
        assert CutSet(tides, dts) - {prev} == {idx} + (later - {idx});
        assert idx !in later - {idx};
      }
    }
  }

  /** For ascending cut times there is one partition more than there are
      distinct cuts after the start of the list. */
  lemma SplitCount(tides: seq<Measurement>, dts: seq<Time>)
    requires Ascending(dts)
    ensures |Split(tides, dts)| == 1 + |CutSet(tides, dts) - {0}|
  {
    SplitFromCount(tides, dts, 0);
  }

  /** `split_tides_by_datetimes`: walk the cut times, find each cut by a linear
      search, skip a cut equal to the previous one, and append the rest. */
  method SplitTidesByDatetimes(tides: seq<Measurement>, datetimes: seq<Time>)
    returns (partitions: seq<seq<Measurement>>)
    ensures partitions == Split(tides, datetimes)
  {
    partitions := [];
    var prevIdx: nat := 0;
    var k := 0;
    while k < |datetimes|
      invariant 0 <= k <= |datetimes|
      invariant prevIdx <= |tides|
      invariant partitions + SplitFrom(tides, datetimes[k..], prevIdx) == Split(tides, datetimes)
    {
      var dt := datetimes[k];
      var idx := 0;
      while idx < |tides| && tides[idx].time <= dt
        invariant 0 <= idx <= |tides|
        invariant forall j :: 0 <= j < idx ==> tides[j].time <= dt
      {
        idx := idx + 1;
      }
      CutIndexUnique(tides, dt, idx);
      assert datetimes[k..][0] == dt && datetimes[k..][1..] == datetimes[k + 1..];
      if idx != prevIdx {
        partitions := partitions + [Slice(tides, prevIdx, idx)];
        prevIdx := idx;
      }
      k := k + 1;
    }
    assert datetimes[k..] == [];
    partitions := partitions + [tides[prevIdx..]];
  }
}
