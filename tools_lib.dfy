/** tide_tools/lib.py: the station lookup, the chunked sample download, the
    high/low classification and the threshold windows of the command-line tool. */
module ToolsLib {
  import opened Common
  import Extrema
  import Partition
  import Windows
  import Fetch
  import Registry

  /** `get_station_options`: the registry's reply as it is; None when the
      request failed. */
  function GetStationOptions(response: Option<seq<Station>>): (r: Result<seq<Station>>)
    ensures r.Failure? <==> response.None?
    ensures r.Failure? ==> r.error == RequestFailed
    ensures r.Success? ==> r.value == response.value
  {
    if response.None? then Failure(RequestFailed) else Success(response.value)
  }

  /** `get_station_by_name`: the first station of the fresh registry list
      whose official name the pattern matches. */
  function GetStationByName(response: Option<seq<Station>>, stationName: string,
                            reMatch: (string, string) -> bool): (r: Result<Option<Station>>)
    ensures r.Failure? <==> response.None?
    ensures r.Failure? ==> r.error == RequestFailed
    ensures r.Success? ==> (r.value.None? <==>
      forall i :: 0 <= i < |response.value| ==> !reMatch(stationName, response.value[i].name))
    ensures r.Success? && r.value.Some? ==> exists i :: (0 <= i < |response.value|
      && response.value[i] == r.value.value && reMatch(stationName, r.value.value.name)
      && forall j :: 0 <= j < i ==> !reMatch(stationName, response.value[j].name))
  {
    match GetStationOptions(response)
    case Failure(e) => Failure(e)
    case Success(stations) =>
      match Registry.FirstMatch(stations, (s: Station) => reMatch(stationName, s.name))
      case None => Success(None)
      case Some(i) => Success(Some(stations[i]))
  }

  /** `(end - start).days + 1`. */
  function NumDays(start: Time, end: Time): int {
    (end - start) / Day + 1
  }

  /** The number of values in `range(0, n, c)` for a positive step. */
  function RangeCount(n: int, c: int): (count: nat)
    requires n > 0 && c > 0
    ensures forall j :: 0 <= j < count ==> j * c < n
    ensures count * c >= n
  {
    var count := (n + c - 1) / c;
    forall j | 0 <= j < count ensures j * c < n {
      CountBound(n, c, j);
    }
    count
  }

  lemma CountBound(n: int, c: int, j: int)
    requires n > 0 && c > 0 && 0 <= j < (n + c - 1) / c
    ensures j * c < n
  {
    var q := (n + c - 1) / c;
    assert q * c <= n + c - 1;
    assert (j + 1) * c <= q * c by {
      MulMonotone(j + 1, q, c);
    }
  }

  lemma MulMonotone(a: int, b: int, c: int)
    requires a <= b && c >= 0
    ensures a * c <= b * c
  {
  }

  /** The first day, as an offset of `start`, of chunk `j`. */
  function ChunkStart(start: Time, chunk: int, j: nat): Time {
    start + j * chunk * Day
  }

  /** `min(end, chunk_start + timedelta(days=chunk, minutes=-15))`. */
  function ChunkEnd(start: Time, end: Time, chunk: int, j: nat): Time {
    Min(end, ChunkStart(start, chunk, j) + chunk * Day - Quarter)
  }

  /** The request windows of `get_tides_between_dates`: one per value of
      `range(0, num_days, chunk_req_size)`. A zero step raises; a negative one
      gives no window. */
  function DateWindows(start: Time, end: Time, chunk: int): (r: Result<seq<(Time, Time)>>)
    requires start < end
    ensures r.Failure? <==> chunk == 0
    ensures r.Failure? ==> r.error == ZeroStep
    ensures chunk < 0 ==> r == Success([])
    ensures chunk > 0 ==> r.Success? && |r.value| == RangeCount(NumDays(start, end), chunk)
    ensures r.Success? ==> forall j :: 0 <= j < |r.value| ==>
      r.value[j] == (ChunkStart(start, chunk, j), ChunkEnd(start, end, chunk, j))
  {
    if chunk == 0 then Failure(ZeroStep)
    else if chunk < 0 then Success([])
    else
      var n := RangeCount(NumDays(start, end), chunk);
      Success(seq(n, j requires 0 <= j < n => (ChunkStart(start, chunk, j), ChunkEnd(start, end, chunk, j))))
  }

  /** Each window lies inside [start, end] and starts no later than it ends;
      the first starts at `start`. */
  lemma DateWindowsBounds(start: Time, end: Time, chunk: int)
    requires start < end && chunk > 0
    ensures var ws := DateWindows(start, end, chunk).value;
      && |ws| >= 1 && ws[0].0 == start
      && forall j :: 0 <= j < |ws| ==> start <= ws[j].0 <= ws[j].1 <= end
  {
    var ws := DateWindows(start, end, chunk).value;
    var n := NumDays(start, end);
    forall j | 0 <= j < |ws| ensures start <= ws[j].0 <= ws[j].1 <= end {
      ChunkStartInRange(start, end, chunk, j);
    }
  }

  /** Chunk `j` of the range starts within it. */
  lemma ChunkStartInRange(start: Time, end: Time, chunk: int, j: nat)
    requires start < end && chunk > 0 && j * chunk < NumDays(start, end)
    ensures start <= ChunkStart(start, chunk, j) <= end
  {
    var d := (end - start) / Day;
    assert j * chunk <= d;
    MulMonotone(j * chunk, d, Day);
    assert d * Day <= end - start;
    assert j * chunk * Day == (j * chunk) * Day;
  }

  /** The windows tile the range: each window after the first starts a
      quarter hour after the previous one ends. */
  lemma DateWindowsContiguous(start: Time, end: Time, chunk: int, j: nat)
    requires start < end && chunk > 0
    requires j + 1 < |DateWindows(start, end, chunk).value|
    ensures var ws := DateWindows(start, end, chunk).value;
      ws[j + 1].0 == ws[j].1 + Quarter
  {
    ChunkStartInRange(start, end, chunk, j + 1);
    assert ChunkStart(start, chunk, j + 1) == ChunkStart(start, chunk, j) + chunk * Day;
  }

  /** For a range of whole days the last window ends at `end`. */
  lemma DateWindowsReachEnd(start: Time, end: Time, chunk: int)
    requires start < end && chunk > 0 && (end - start) % Day == 0
    ensures var ws := DateWindows(start, end, chunk).value;
      |ws| >= 1 && ws[|ws| - 1].1 == end
  {
    var ws := DateWindows(start, end, chunk).value;
    var n := NumDays(start, end);
    var k := |ws|;
    assert k * chunk >= n;
    var d := (end - start) / Day;
    assert end - start == d * Day;
    MulMonotone(d + 1, k * chunk, Day);
    assert (k - 1) * chunk * Day + chunk * Day == k * chunk * Day;
    assert ChunkStart(start, chunk, k - 1) + chunk * Day - Quarter >= end;
  }

  /** The loop of `get_tides_between_dates` that builds the request windows. */
  method RequestWindows(start: Time, end: Time, chunkReqSize: int) returns (r: Result<seq<(Time, Time)>>)
    requires start < end
    ensures r == DateWindows(start, end, chunkReqSize)
  {
    if chunkReqSize == 0 {
      return Failure(ZeroStep);
    }
    var numDays := (end - start) / Day + 1;
    var windows: seq<(Time, Time)> := [];
    if chunkReqSize < 0 {
      return Success(windows);
    }
    var count := RangeCount(numDays, chunkReqSize);
    var i := 0;
    while i < numDays
      invariant i == |windows| * chunkReqSize && i >= 0
      invariant forall j :: 0 <= j < |windows| ==>
        windows[j] == (ChunkStart(start, chunkReqSize, j), ChunkEnd(start, end, chunkReqSize, j))
      invariant |windows| <= count
      decreases numDays - i
    {
      var chunkStart := start + i * Day;
      var chunkEnd := Min(end, chunkStart + chunkReqSize * Day - Quarter);
      StepIndex(start, chunkReqSize, |windows|, i);
      BelowCount(|windows|, count, chunkReqSize, numDays);
      windows := windows + [(chunkStart, chunkEnd)];
      i := i + chunkReqSize;
    }
    assert |windows| >= count;
    assert windows == DateWindows(start, end, chunkReqSize).value;
    r := Success(windows);
  }

  lemma StepIndex(start: Time, chunk: int, k: nat, i: int)
    requires i == k * chunk
    ensures start + i * Day == ChunkStart(start, chunk, k)
  {
  }

  lemma BelowCount(k: nat, count: nat, c: int, n: int)
    requires c > 0 && k * c < n && count * c >= n
    ensures k < count
  {
    if k >= count {
      MulMonotone(count, k, c);
    }
  }

  /** `get_tides_between_dates`: the station's series and the range are
      checked in that order, then one request per window, the samples of
      the replies in order. `respond` is the registry's reply to a window. */
  function TidesBetweenDates(station: Station, start: Time, end: Time, chunkReqSize: int,
                             respond: (Time, Time) -> Fetch.Reply): (r: Result<seq<Measurement>>)
    ensures !HasWaterLevel(station) ==> r == Failure(MissingSeries)
    ensures HasWaterLevel(station) && end <= start ==> r == Failure(InvalidRange)
    ensures HasWaterLevel(station) && start < end && chunkReqSize == 0 ==> r == Failure(ZeroStep)
    ensures HasWaterLevel(station) && start < end && chunkReqSize != 0 ==>
      var ws := DateWindows(start, end, chunkReqSize).value;
      r == Fetch.Gathered(seq(|ws|, j requires 0 <= j < |ws| => respond(ws[j].0, ws[j].1)))
  {
    if !HasWaterLevel(station) then Failure(MissingSeries)
    else if end <= start then Failure(InvalidRange)
    else
      match DateWindows(start, end, chunkReqSize)
      case Failure(e) => Failure(e)
      case Success(ws) => Fetch.Gathered(seq(|ws|, j requires 0 <= j < |ws| => respond(ws[j].0, ws[j].1)))
  }

  method GetTidesBetweenDates(station: Station, start: Time, end: Time, chunkReqSize: int,
                              respond: (Time, Time) -> Fetch.Reply) returns (r: Result<seq<Measurement>>)
    ensures r == TidesBetweenDates(station, start, end, chunkReqSize, respond)
  {
    if !HasWaterLevel(station) {
      return Failure(MissingSeries);
    }
    if end <= start {
      return Failure(InvalidRange);
    }
    var windows := RequestWindows(start, end, chunkReqSize);
    if windows.Failure? {
      return Failure(windows.error);
    }
    var ws := windows.value;
    var replies := seq(|ws|, j requires 0 <= j < |ws| => respond(ws[j].0, ws[j].1));
    r := Fetch.GatherReplies(replies);
  }

  /** A root of the derivative is a low tide when the slope is falling a
      minute before it; every other root is a high tide. */
  predicate IsLowTide(fp: Curve, t: Time) {
    fp.at(t - Minute) < 0.0
  }

  /** `get_hilo_tides`: a quartic spline through all samples, its
      derivative's roots split into high and low tides. */
  function GetHiLoTides(tides: seq<Measurement>, fit: Fitter): (r: (seq<Measurement>, seq<Measurement>))
    ensures var sp := fit(Times(tides), Heights(tides), 4);
      && (forall m :: m in r.0 <==>
            (m.time in sp.derivative.roots && !IsLowTide(sp.derivative, m.time) && m.height == sp.curve.at(m.time)))
      && (forall m :: m in r.1 <==>
            (m.time in sp.derivative.roots && IsLowTide(sp.derivative, m.time) && m.height == sp.curve.at(m.time)))
  {
    var sp := fit(Times(tides), Heights(tides), 4);
    var fp := sp.derivative;
    (Extrema.Select(sp.curve.at, fp.roots, t => !IsLowTide(fp, t)),
     Extrema.Select(sp.curve.at, fp.roots, t => IsLowTide(fp, t)))
  }

  /** Every root is classified exactly once: the two lists' times together
      are the derivative's roots, with multiplicity. */
  lemma GetHiLoTidesComplete(tides: seq<Measurement>, fit: Fitter)
    ensures var (highs, lows) := GetHiLoTides(tides, fit);
      var roots := fit(Times(tides), Heights(tides), 4).derivative.roots;
      && |highs| + |lows| == |roots|
      && multiset(Times(highs)) + multiset(Times(lows)) == multiset(roots)
  {
    var sp := fit(Times(tides), Heights(tides), 4);
    var fp := sp.derivative;
    Extrema.SelectComplement(sp.curve.at, fp.roots, t => !IsLowTide(fp, t), t => IsLowTide(fp, t));
  }

  /** Both lists keep the order of the roots: ascending roots give
      chronological high tides and chronological low tides. */
  lemma GetHiLoTidesChronological(tides: seq<Measurement>, fit: Fitter)
    requires StrictlyAscending(fit(Times(tides), Heights(tides), 4).derivative.roots)
    ensures Extrema.Chronological(GetHiLoTides(tides, fit).0)
    ensures Extrema.Chronological(GetHiLoTides(tides, fit).1)
  {
    var sp := fit(Times(tides), Heights(tides), 4);
    var fp := sp.derivative;
    Extrema.SelectAscending(sp.curve.at, fp.roots, t => !IsLowTide(fp, t));
    Extrema.SelectAscending(sp.curve.at, fp.roots, t => IsLowTide(fp, t));
  }

  /** `find_tide_windows`: classify, cut the samples at the high tides and
      resolve each partition with a cubic spline. */
  method FindTideWindows(tides: seq<Measurement>, maxTideHeight: real, fit: Fitter) returns (windows: seq<Window>)
    ensures windows == Windows.TideWindows(tides, GetHiLoTides(tides, fit).0, maxTideHeight, fit)
  {
    var (highTides, _) := GetHiLoTides(tides, fit);
    var parts := Partition.SplitTidesByDatetimes(tides, Times(highTides));
    windows := Windows.WindowsForPartitions(parts, maxTideHeight, fit);
    assert windows == Windows.TideWindows(tides, highTides, maxTideHeight, fit);
  }
}
