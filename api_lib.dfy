/** tide_api/lib.py: the `StationTides` object with its lazily fetched and
    cached samples, high and low tides, point queries, threshold windows and
    low-tide events, and the module-level `expand_windows`. */
module ApiLib {
  import opened Common
  import Extrema
  import Partition
  import Windows
  import Fetch
  import Events

  /** A root of the derivative is a low tide when the slope is falling a
      quarter hour before and rising a quarter hour after. */
  predicate IsLowTide(fp: Curve, t: Time) {
    fp.at(t - Quarter) < 0.0 < fp.at(t + Quarter)
  }

  /** ... and a high tide when it is rising before and falling after. */
  predicate IsHighTide(fp: Curve, t: Time) {
    fp.at(t - Quarter) > 0.0 > fp.at(t + Quarter)
  }

  /** The spline degree for the extrema: `min(4, n - 1)`. */
  function ExtremaDegree(n: nat): (k: int)
    ensures n >= 5 ==> k == 4
    ensures n >= 1 ==> 0 <= k < n
  {
    Min(4, n - 1)
  }

  /** `_get_hilo_tides`: fewer than five samples give no extrema; otherwise the
      high and the low tides among the derivative's roots, each with the
      spline's height there. */
  function HiLoTides(tides: seq<Measurement>, fit: Fitter): (r: (seq<Measurement>, seq<Measurement>))
    ensures |tides| < 5 ==> r == ([], [])
    ensures |tides| >= 5 ==> var sp := fit(Times(tides), Heights(tides), 4);
      && (forall m :: m in r.0 <==>
            (m.time in sp.derivative.roots && IsHighTide(sp.derivative, m.time) && m.height == sp.curve.at(m.time)))
      && (forall m :: m in r.1 <==>
            (m.time in sp.derivative.roots && IsLowTide(sp.derivative, m.time) && m.height == sp.curve.at(m.time)))
  {
    if |tides| < 5 then ([], [])
    else
      var sp := fit(Times(tides), Heights(tides), ExtremaDegree(|tides|));
      var fp := sp.derivative;
      (Extrema.Select(sp.curve.at, fp.roots, t => IsHighTide(fp, t)),
       Extrema.Select(sp.curve.at, fp.roots, t => IsLowTide(fp, t)))
  }

  /** No root is both a high and a low tide, so the two lists never share a
      time and together hold at most one extremum per root; with ascending
      roots both lists are in time order. */
  lemma HiLoTidesSeparate(tides: seq<Measurement>, fit: Fitter)
    ensures var (highs, lows) := HiLoTides(tides, fit);
      && (forall a, b :: a in highs && b in lows ==> a.time != b.time)
      && (|tides| >= 5 ==> |highs| + |lows| <= |fit(Times(tides), Heights(tides), 4).derivative.roots|)
    ensures |tides| >= 5 && StrictlyAscending(fit(Times(tides), Heights(tides), 4).derivative.roots) ==>
      Extrema.Chronological(HiLoTides(tides, fit).0) && Extrema.Chronological(HiLoTides(tides, fit).1)
  {
    if |tides| >= 5 {
      var sp := fit(Times(tides), Heights(tides), 4);
      var fp := sp.derivative;
      Extrema.SelectDisjoint(sp.curve.at, fp.roots, t => IsHighTide(fp, t), t => IsLowTide(fp, t));
      if StrictlyAscending(fp.roots) {
        Extrema.SelectAscending(sp.curve.at, fp.roots, t => IsHighTide(fp, t));
        Extrema.SelectAscending(sp.curve.at, fp.roots, t => IsLowTide(fp, t));
      }
    }
  }

  /** The samples' fetch: a station without a water-level series raises
      before any request; otherwise the replies are gathered. */
  function FetchTides(station: Station, replies: seq<Fetch.Reply>): (r: Result<seq<Measurement>>)
    ensures !HasWaterLevel(station) ==> r == Failure(MissingSeries)
    ensures HasWaterLevel(station) ==> r == Fetch.Gathered(replies)
  {
    if !HasWaterLevel(station) then Failure(MissingSeries) else Fetch.Gathered(replies)
  }

  /** The index `min(range(n), key=lambda i: abs(ts[i] - t))` returns: a
      nearest sample, the first of several equally near. */
  function NearestIndex(ts: seq<Time>, t: Time): (i: nat)
    requires |ts| > 0
    ensures i < |ts|
    ensures forall j :: 0 <= j < |ts| ==> Abs(ts[i] - t) <= Abs(ts[j] - t)
    ensures forall j :: 0 <= j < i ==> Abs(ts[j] - t) > Abs(ts[i] - t)
  {
    if |ts| == 1 then 0
    else
      var k := NearestIndex(ts[..|ts| - 1], t);
      assert forall j :: 0 <= j < |ts| - 1 ==> ts[..|ts| - 1][j] == ts[j];
      if Abs(ts[|ts| - 1] - t) < Abs(ts[k] - t) then |ts| - 1 else k
  }

  function Abs(x: int): nat { if x < 0 then -x else x }

  /** The height at `t` from the samples alone (the part of
      `get_tide_at_time` after the range check): none at all raises; one to
      three give the nearest sample's height; more use the cubic spline. */
  function TideAt(tides: seq<Measurement>, fit: Fitter, t: Time): (r: Result<Measurement>)
    ensures r.Failure? <==> tides == []
    ensures r.Failure? ==> r.error == NoData
    ensures r.Success? ==> r.value.time == t
    ensures 1 <= |tides| < 4 ==> r.Success? && exists i :: (0 <= i < |tides| && r.value.height == tides[i].height
      && forall j :: 0 <= j < |tides| ==> Abs(tides[i].time - t) <= Abs(tides[j].time - t))
    ensures 1 <= |tides| < 4 ==> r == Success(Measurement(t, tides[NearestIndex(Times(tides), t)].height))
    ensures |tides| >= 4 ==> r == Success(Measurement(t, fit(Times(tides), Heights(tides), 3).curve.at(t)))
  {
    var n := |tides|;
    if n == 0 then Failure(NoData)
    else if n < 4 then
      var i := NearestIndex(Times(tides), t);
      assert forall j :: 0 <= j < n ==> Times(tides)[j] == tides[j].time;
      Success(Measurement(t, tides[i].height))
    else
      Success(Measurement(t, fit(Times(tides), Heights(tides), Windows.QueryDegree(n)).curve.at(t)))
  }

  /** A point query on a sample exactly at the queried time, among fewer than
      four samples with distinct times, returns that sample's height. */
  lemma TideAtSample(tides: seq<Measurement>, fit: Fitter, i: nat)
    requires 1 <= |tides| < 4 && i < |tides|
    requires forall j :: 0 <= j < |tides| && j != i ==> tides[j].time != tides[i].time
    ensures TideAt(tides, fit, tides[i].time) == Success(tides[i])
  {
    var k := NearestIndex(Times(tides), tides[i].time);
    assert forall j :: 0 <= j < |tides| ==> Times(tides)[j] == tides[j].time;
    assert Abs(tides[k].time - tides[i].time) <= Abs(tides[i].time - tides[i].time);
  }

  /** `get_tide_at_time` on a series: outside the object's [start date,
      end date] range raises first, then the fetch's errors, then the query. */
  function TideAtTime(station: Station, replies: seq<Fetch.Reply>, fit: Fitter,
                      startDate: Time, endDate: Time, t: Time): (r: Result<Measurement>)
    ensures t < startDate || t > endDate ==> r == Failure(OutOfRange)
    ensures startDate <= t <= endDate && FetchTides(station, replies).Failure? ==>
      r == Failure(FetchTides(station, replies).error)
    ensures startDate <= t <= endDate && FetchTides(station, replies).Success? ==>
      r == TideAt(FetchTides(station, replies).value, fit, t)
  {
    if t < startDate || t > endDate then Failure(OutOfRange)
    else
      match FetchTides(station, replies)
      case Failure(e) => Failure(e)
      case Success(ts) => TideAt(ts, fit, t)
  }

  /** The windows `detect_tide_windows` returns for a series: the series is
      cut at its high tides and each partition resolved against the threshold. */
  function DetectWindows(tides: seq<Measurement>, fit: Fitter, threshold: real): (ws: seq<Window>)
    ensures |ws| == |Partition.Split(tides, Times(HiLoTides(tides, fit).0))|
    ensures forall i :: 0 <= i < |ws| ==>
      ws[i] == Windows.PartitionWindow(Partition.Split(tides, Times(HiLoTides(tides, fit).0))[i], threshold, fit)
  {
    Windows.TideWindows(tides, HiLoTides(tides, fit).0, threshold, fit)
  }

  /** With no high tide the series is one partition and yields one window. */
  lemma DetectWindowsNoHighTide(tides: seq<Measurement>, fit: Fitter, threshold: real)
    requires |tides| < 5
    ensures DetectWindows(tides, fit, threshold) == [Windows.PartitionWindow(tides, threshold, fit)]
  {
  }

  /** `tide_windows=None` means no thresholds. */
  function Thresholds(o: Option<seq<real>>): (r: seq<real>)
    ensures o.None? ==> r == []
    ensures o.Some? ==> r == o.value
  {
    if o.None? then [] else o.value
  }

  /** The window list of every threshold, in threshold order. */
  function ThresholdWindows(tides: seq<Measurement>, fit: Fitter, thresholds: seq<real>): (lists: seq<seq<Window>>)
    ensures |lists| == |thresholds|
    ensures forall j :: 0 <= j < |thresholds| ==> lists[j] == DetectWindows(tides, fit, thresholds[j])
  {
    seq(|thresholds|, j requires 0 <= j < |thresholds| => DetectWindows(tides, fit, thresholds[j]))
  }

  /** The events `low_tide_events` returns for a series: one window list per
      threshold, each list shifted by one when the series starts on a high
      tide, and one event per low tide. */
  function EventsOf(tides: seq<Measurement>, fit: Fitter, thresholds: seq<real>,
                    localDate: Time -> int, sunOn: int -> Events.SunTimes): (r: Result<seq<Events.TideEvent>>)
    ensures var (highs, lows) := HiLoTides(tides, fit);
      var lists := Events.AlignWindows(highs, lows, ThresholdWindows(tides, fit, thresholds));
      && (r.Failure? <==> Events.SomeListShort(lists, lows))
      && (r.Success? ==> |r.value| == |lows| && forall i :: 0 <= i < |lows| ==>
            && r.value[i].lowTideTime == lows[i].time && r.value[i].lowTideHeight == lows[i].height
            && forall j :: Events.LastOccurrence(thresholds, j) ==>
                 thresholds[j] in r.value[i].windows && r.value[i].windows[thresholds[j]] == lists[j][i])
  {
    var (highs, lows) := HiLoTides(tides, fit);
    var lists := Events.AlignWindows(highs, lows, ThresholdWindows(tides, fit, thresholds));
    var r := Events.Events(lows, thresholds, lists, localDate, sunOn);
    if r.Success? then
      forall i, j | 0 <= i < |lows| && Events.LastOccurrence(thresholds, j)
        ensures thresholds[j] in r.value[i].windows && r.value[i].windows[thresholds[j]] == lists[j][i]
      {
        Events.WindowsAtLast(thresholds, lists, i, j);
      }
      r
    else r
  }

  /** Only a proof step for `LowTideEvents`: the events are the rows built
      from the low tides and the aligned lists. */
  lemma EventsOfEvents(tides: seq<Measurement>, fit: Fitter, thresholds: seq<real>,
                       localDate: Time -> int, sunOn: int -> Events.SunTimes)
    ensures var (highs, lows) := HiLoTides(tides, fit);
      EventsOf(tides, fit, thresholds, localDate, sunOn)
        == Events.Events(lows, thresholds, Events.AlignWindows(highs, lows, ThresholdWindows(tides, fit, thresholds)), localDate, sunOn)
  {
  }

  /** When the series starts on a high tide, row `i` takes the window of
      partition `i + 1`: the partition holding the `i`-th low tide. */
  lemma EventsSkipLeadingHighTide(tides: seq<Measurement>, fit: Fitter, thresholds: seq<real>,
                                  localDate: Time -> int, sunOn: int -> Events.SunTimes, i: nat, j: nat)
    requires Events.HighTideFirst(HiLoTides(tides, fit).0, HiLoTides(tides, fit).1)
    requires EventsOf(tides, fit, thresholds, localDate, sunOn).Success?
    requires i < |HiLoTides(tides, fit).1| && Events.LastOccurrence(thresholds, j)
    ensures EventsOf(tides, fit, thresholds, localDate, sunOn).value[i].windows[thresholds[j]]
      == DetectWindows(tides, fit, thresholds[j])[i + 1]
  {
    var (highs, lows) := HiLoTides(tides, fit);
    var raw := ThresholdWindows(tides, fit, thresholds);
    var lists := Events.AlignWindows(highs, lows, raw);
    var e := EventsOf(tides, fit, thresholds, localDate, sunOn);
    assert !Events.SomeListShort(lists, lows);
    assert i < |lists[j]|;
    assert raw[j] == [raw[j][0]] + lists[j];
    assert raw[j][i + 1] == lists[j][i];
    assert e.value[i].windows[thresholds[j]] == lists[j][i];
  }

  /** A station's tides over [start date, end date], fetched on first use and
      cached, with the high and low tides computed once from them. */
  class StationTides {
    const station: Station
    const startDate: Time
    const endDate: Time
    /** The registry's replies to the chunk requests for this range. */
    const replies: seq<Fetch.Reply>
    /** The spline library. */
    const fit: Fitter

    var tidesCache: Option<seq<Measurement>>
    var highCache: Option<seq<Measurement>>
    var lowCache: Option<seq<Measurement>>

    /** The range is non-empty and every filled cache holds what the pure
        pipeline computes. */
    predicate Valid()
      reads this
    {
      && startDate < endDate
      && (tidesCache.Some? ==> FetchTides(station, replies) == Success(tidesCache.value))
      && (highCache.Some? <==> lowCache.Some?)
      && (highCache.Some? ==>
            tidesCache.Some? && HiLoTides(tidesCache.value, fit) == (highCache.value, lowCache.value))
    }

    /** Every cache holds its value: the samples and both extremum lists. */
    predicate AllCached()
      reads this
    {
      && FetchTides(station, replies).Success?
      && tidesCache == Some(FetchTides(station, replies).value)
      && highCache == Some(HiLoTides(FetchTides(station, replies).value, fit).0)
      && lowCache == Some(HiLoTides(FetchTides(station, replies).value, fit).1)
    }

    constructor (station: Station, startDate: Time, endDate: Time, replies: seq<Fetch.Reply>, fit: Fitter)
      requires startDate < endDate
      ensures Valid()
      ensures this.station == station && this.startDate == startDate && this.endDate == endDate
      ensures this.replies == replies && this.fit == fit
      ensures tidesCache.None? && highCache.None? && lowCache.None?
    {
      this.station := station;
      this.startDate := startDate;
      this.endDate := endDate;
      this.replies := replies;
      this.fit := fit;
      tidesCache := None;
      highCache := None;
      lowCache := None;
    }

    /** `StationTides(...)`: an end date not after the start date raises. */
    static method Create(station: Station, startDate: Time, endDate: Time, replies: seq<Fetch.Reply>, fit: Fitter)
      returns (r: Result<StationTides>)
      ensures r.Failure? <==> endDate <= startDate
      ensures r.Failure? ==> r.error == InvalidRange
      ensures r.Success? ==> fresh(r.value) && r.value.Valid()
      ensures r.Success? ==> r.value.station == station && r.value.replies == replies && r.value.fit == fit
      ensures r.Success? ==> r.value.startDate == startDate && r.value.endDate == endDate
      ensures r.Success? ==> r.value.tidesCache.None? && r.value.highCache.None? && r.value.lowCache.None?
    {
      if endDate <= startDate {
        return Failure(InvalidRange);
      }
      var st := new StationTides(station, startDate, endDate, replies, fit);
      r := Success(st);
    }

    /** The `tides` property: fetch on first use, then serve the cache. */
    method Tides() returns (r: Result<seq<Measurement>>)
      requires Valid()
      modifies this
      ensures Valid()
      ensures r == FetchTides(station, replies)
      ensures tidesCache == (if r.Success? then Some(r.value) else old(tidesCache))
      ensures highCache == old(highCache) && lowCache == old(lowCache)
    {
      if tidesCache.Some? {
        return Success(tidesCache.value);
      }
      if !HasWaterLevel(station) {
        return Failure(MissingSeries);
      }
      r := Fetch.GatherReplies(replies);
      if r.Success? {
        tidesCache := Some(r.value);
      }
    }

    /** The shared body of `high_tides` and `low_tides`: compute both lists
        on first use. */
    method HiLo() returns (r: Result<(seq<Measurement>, seq<Measurement>)>)
      requires Valid()
      modifies this
      ensures Valid()
      ensures FetchTides(station, replies).Failure? ==> r == Failure(FetchTides(station, replies).error)
      ensures FetchTides(station, replies).Success? ==>
        r == Success(HiLoTides(FetchTides(station, replies).value, fit))
      ensures r.Success? ==> AllCached()
      ensures r.Failure? ==> tidesCache == old(tidesCache) && highCache == old(highCache) && lowCache == old(lowCache)
    {
      if highCache.Some? {
        return Success((highCache.value, lowCache.value));
      }
      var ts := Tides();
      if ts.Failure? {
        return Failure(ts.error);
      }
      var hl := HiLoTides(ts.value, fit);
      highCache := Some(hl.0);
      lowCache := Some(hl.1);
      r := Success(hl);
    }

    method HighTides() returns (r: Result<seq<Measurement>>)
      requires Valid()
      modifies this
      ensures Valid()
      ensures FetchTides(station, replies).Failure? ==> r == Failure(FetchTides(station, replies).error)
      ensures FetchTides(station, replies).Success? ==>
        r == Success(HiLoTides(FetchTides(station, replies).value, fit).0)
      ensures FetchTides(station, replies).Success? ==> AllCached()
      ensures FetchTides(station, replies).Failure? ==>
        tidesCache == old(tidesCache) && highCache == old(highCache) && lowCache == old(lowCache)
    {
      var hl := HiLo();
      r := if hl.Success? then Success(hl.value.0) else Failure(hl.error);
    }

    method LowTides() returns (r: Result<seq<Measurement>>)
      requires Valid()
      modifies this
      ensures Valid()
      ensures FetchTides(station, replies).Failure? ==> r == Failure(FetchTides(station, replies).error)
      ensures FetchTides(station, replies).Success? ==>
        r == Success(HiLoTides(FetchTides(station, replies).value, fit).1)
      ensures FetchTides(station, replies).Success? ==> AllCached()
      ensures FetchTides(station, replies).Failure? ==>
        tidesCache == old(tidesCache) && highCache == old(highCache) && lowCache == old(lowCache)
    {
      var hl := HiLo();
      r := if hl.Success? then Success(hl.value.1) else Failure(hl.error);
    }

    /** `get_tide_at_time`. */
    method GetTideAtTime(t: Time) returns (r: Result<Measurement>)
      requires Valid()
      modifies this
      ensures Valid()
      ensures r == TideAtTime(station, replies, fit, startDate, endDate, t)
      ensures tidesCache == if startDate <= t <= endDate && FetchTides(station, replies).Success?
        then Some(FetchTides(station, replies).value) else old(tidesCache)
      ensures highCache == old(highCache) && lowCache == old(lowCache)
    {
      if t < startDate || t > endDate {
        return Failure(OutOfRange);
      }
      var ts := Tides();
      if ts.Failure? {
        return Failure(ts.error);
      }
      var tides := ts.value;
      var n := |tides|;
      if n < 4 {
        if n == 0 {
          return Failure(NoData);
        }
        var i := NearestIndex(Times(tides), t);
        r := Success(Measurement(t, tides[i].height));
      } else {
        r := Success(Measurement(t, fit(Times(tides), Heights(tides), Windows.QueryDegree(n)).curve.at(t)));
      }
    }

    /** `detect_tide_windows`: one window per low-tide partition. */
    method DetectTideWindows(threshold: real) returns (r: Result<seq<Window>>)
      requires Valid()
      modifies this
      ensures Valid()
      ensures FetchTides(station, replies).Failure? ==> r == Failure(FetchTides(station, replies).error)
      ensures FetchTides(station, replies).Success? ==>
        r == Success(DetectWindows(FetchTides(station, replies).value, fit, threshold))
      ensures FetchTides(station, replies).Success? ==> AllCached()
      ensures FetchTides(station, replies).Failure? ==>
        tidesCache == old(tidesCache) && highCache == old(highCache) && lowCache == old(lowCache)
    {
      var ts := Tides();
      var hl := HiLo();
      if hl.Failure? {
        return Failure(hl.error);
      }
      var parts := Partition.SplitTidesByDatetimes(ts.value, Times(hl.value.0));
      var ws := Windows.WindowsForPartitions(parts, threshold, fit);
      assert ws == DetectWindows(ts.value, fit, threshold);
      r := Success(ws);
    }

    /** `low_tide_events`: `localDate` is the local calendar day of a time
        in the requested zone and `sunOn` the sun's times at this station on
        a day. */
    method LowTideEvents(tideWindows: Option<seq<real>>, localDate: Time -> int, sunOn: int -> Events.SunTimes)
      returns (r: Result<seq<Events.TideEvent>>)
      requires Valid()
      modifies this
      ensures Valid()
      ensures FetchTides(station, replies).Failure? ==> r == Failure(FetchTides(station, replies).error)
      ensures FetchTides(station, replies).Success? ==>
        r == EventsOf(FetchTides(station, replies).value, fit, Thresholds(tideWindows), localDate, sunOn)
      ensures FetchTides(station, replies).Success? ==> AllCached()
      ensures FetchTides(station, replies).Failure? ==>
        tidesCache == old(tidesCache) && highCache == old(highCache) && lowCache == old(lowCache)
    {
      var thresholds := Thresholds(tideWindows);
      var ts := Tides();
      if ts.Failure? {
        return Failure(ts.error);
      }
      var lists := WindowLists(thresholds);
      var hl := HiLo();
      var aligned := Events.AlignWindows(hl.value.0, hl.value.1, lists);
      EventsOfEvents(ts.value, fit, thresholds, localDate, sunOn);
      r := Events.BuildEvents(hl.value.1, thresholds, aligned, localDate, sunOn);
    }

    /** `list(map(self.detect_tide_windows, tide_windows))`: one window list
        per threshold, in threshold order. */
    method WindowLists(thresholds: seq<real>) returns (lists: seq<seq<Window>>)
      requires Valid() && FetchTides(station, replies).Success?
      modifies this
      ensures Valid()
      ensures lists == ThresholdWindows(FetchTides(station, replies).value, fit, thresholds)
      ensures |thresholds| > 0 ==> AllCached()
      ensures |thresholds| == 0 ==>
        tidesCache == old(tidesCache) && highCache == old(highCache) && lowCache == old(lowCache)
    {
      ghost var tides := FetchTides(station, replies).value;
      lists := [];
      var j := 0;
      while j < |thresholds|
        invariant Valid() && FetchTides(station, replies) == Success(tides)
        invariant 0 <= j <= |thresholds| && |lists| == j
        invariant j > 0 ==> AllCached()
        invariant j == 0 ==> tidesCache == old(tidesCache) && highCache == old(highCache) && lowCache == old(lowCache)
        invariant forall k :: 0 <= k < j ==> lists[k] == DetectWindows(tides, fit, thresholds[k])
      {
        var ws := DetectTideWindows(thresholds[j]);
        lists := lists + [ws.value];
        j := j + 1;
      }
    }
  }

  /** `expand_windows`: every event as a dictionary, its windows flattened
      into three columns per threshold. */
  method ExpandWindows(sheet: seq<Events.TideEvent>) returns (rows: seq<map<Events.Key, Events.Cell>>)
    ensures |rows| == |sheet|
    ensures forall i :: 0 <= i < |sheet| ==> rows[i] == Events.Expanded(Events.EventFields(sheet[i]))
  {
    rows := [];
    var i := 0;
    while i < |sheet|
      invariant 0 <= i <= |sheet| && |rows| == i
      invariant forall k :: 0 <= k < i ==> rows[k] == Events.Expanded(Events.EventFields(sheet[k]))
    {
      var row := Events.ExpandFields(Events.EventFields(sheet[i]));
      rows := rows + [row];
      i := i + 1;
    }
  }
}
