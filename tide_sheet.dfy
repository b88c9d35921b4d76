/** tide_tools/get_tide_sheet.py: the low-tide sheet of the command-line tool,
    its rows as mutable dictionaries, and their in-place window expansion. */
module TideSheet {
  import opened Common
  import ApiModels
  import Windows
  import Events
  import ToolsLib

  /** `hours_time_difference(t2, t1)`: the within-day hours from `t1` to
      `t2`, None when either is missing; exactly the window duration of the
      web service. */
  function HoursTimeDifference(t2: Option<Time>, t1: Option<Time>): (r: Option<real>)
    ensures r == ApiModels.Hours(Window(t1, t2))
  {
    if t1.None? || t2.None? then None
    else Some(((t2.value - t1.value) % Day) as real / 3600.0)
  }

  /** `tide_windows=None` means 1.5 m and 2.0 m. */
  function DefaultThresholds(o: Option<seq<real>>): (r: seq<real>)
    ensures o.None? ==> r == [1.5, 2.0]
    ensures o.Some? ==> r == o.value
  {
    if o.None? then [1.5, 2.0] else o.value
  }

  /** The chunk size `get_data_sheet` leaves at its default. */
  const ChunkReqSize: int := 30

  /** The dictionary the sheet holds for an event, with each window's hours
      from `hours_time_difference`. */
  function SheetRow(e: Events.TideEvent): (fields: map<Events.Key, Events.Cell>)
    ensures Events.HasWindows(fields)
  {
    map[
      Events.Column("low_tide_date") := Events.DateCell(e.lowTideDate),
      Events.Column("low_tide_height_m") := Events.HeightCell(e.lowTideHeight),
      Events.Column("low_tide_time") := Events.TimeCell(Some(e.lowTideTime)),
      Events.Column("sunrise") := Events.TimeCell(e.sunrise),
      Events.Column("noon") := Events.TimeCell(e.noon),
      Events.Column("sunset") := Events.TimeCell(e.sunset),
      Events.WindowsKey := Events.WindowsCell(map l | l in e.windows ::
        Events.WindowCells(e.windows[l].start, e.windows[l].end,
          HoursTimeDifference(e.windows[l].end, e.windows[l].start)))]
  }

  /** The tool's rows are the web service's event dictionaries. */
  lemma SheetRowIsEventFields(e: Events.TideEvent)
    ensures SheetRow(e) == Events.EventFields(e)
  {
    var a := map l | l in e.windows :: Events.WindowCells(e.windows[l].start, e.windows[l].end,
      HoursTimeDifference(e.windows[l].end, e.windows[l].start));
    var b := map l | l in e.windows :: Events.CellsOf(e.windows[l]);
    forall l | l in e.windows ensures a[l] == b[l] {
      var w := e.windows[l];
      assert HoursTimeDifference(w.end, w.start) == ApiModels.Hours(Window(w.start, w.end));
    }
    assert a == b;
  }

  /** A row's named columns hold the event's low tide, date and sun times,
      and its windows cell has one entry per window of the event. */
  lemma SheetRowFields(e: Events.TideEvent)
    ensures var row := SheetRow(e);
      && row[Events.Column("low_tide_date")] == Events.DateCell(e.lowTideDate)
      && row[Events.Column("low_tide_height_m")] == Events.HeightCell(e.lowTideHeight)
      && row[Events.Column("low_tide_time")] == Events.TimeCell(Some(e.lowTideTime))
      && row[Events.Column("sunrise")] == Events.TimeCell(e.sunrise)
      && row[Events.Column("noon")] == Events.TimeCell(e.noon)
      && row[Events.Column("sunset")] == Events.TimeCell(e.sunset)
      && row[Events.WindowsKey].windows.Keys == e.windows.Keys
      && forall l :: l in e.windows ==>
           row[Events.WindowsKey].windows[l] ==
           Events.WindowCells(e.windows[l].start, e.windows[l].end, ApiModels.Hours(e.windows[l]))
  {
  }

  /** The rows of the sheet for the low tides and aligned window lists. */
  function SheetRows(lows: seq<Measurement>, thresholds: seq<real>, lists: seq<seq<Window>>,
                     localDate: Time -> int, sunOn: int -> Events.SunTimes)
    : (r: Result<seq<map<Events.Key, Events.Cell>>>)
    requires |thresholds| == |lists|
    ensures r.Failure? <==> Events.SomeListShort(lists, lows)
    ensures r.Failure? ==> r.error == IndexOutOfRange
    ensures r.Success? ==> |r.value| == |lows| && forall i :: 0 <= i < |lows| ==>
      Events.AllLonger(lists, i) && r.value[i] == SheetRow(Events.EventAt(lows, i, thresholds, lists, localDate, sunOn))
  {
    match Events.Events(lows, thresholds, lists, localDate, sunOn)
    case Failure(e) => Failure(e)
    case Success(events) => Success(seq(|events|, i requires 0 <= i < |events| => SheetRow(events[i])))
  }

  /** The window lists of a downloaded series: one list per threshold, each
      shifted by one when the series starts on a high tide. */
  function SheetLists(tides: seq<Measurement>, fit: Fitter, thresholds: seq<real>): (r: seq<seq<Window>>)
    ensures |r| == |thresholds|
    ensures var (highs, lows) := ToolsLib.GetHiLoTides(tides, fit);
      forall j :: 0 <= j < |thresholds| ==>
        if Events.HighTideFirst(highs, lows) && Windows.TideWindows(tides, highs, thresholds[j], fit) != []
        then Windows.TideWindows(tides, highs, thresholds[j], fit) == [Windows.TideWindows(tides, highs, thresholds[j], fit)[0]] + r[j]
        else r[j] == Windows.TideWindows(tides, highs, thresholds[j], fit)
  {
    var (highs, lows) := ToolsLib.GetHiLoTides(tides, fit);
    var lists := seq(|thresholds|, j requires 0 <= j < |thresholds| => Windows.TideWindows(tides, highs, thresholds[j], fit));
    Events.AlignWindows(highs, lows, lists)
  }

  /** The sheet for a downloaded series: classify the extrema, one window list
      per threshold, shifted when the series starts on a high tide, and one
      row per low tide. It fails with an index error exactly when a shifted
      list is shorter than the low tides; otherwise row `i` is built from low
      tide `i` and entry `i` of every list. */
  function SheetOf(tides: seq<Measurement>, fit: Fitter, thresholds: seq<real>,
                   localDate: Time -> int, sunOn: int -> Events.SunTimes)
    : (r: Result<seq<map<Events.Key, Events.Cell>>>)
    ensures var lows := ToolsLib.GetHiLoTides(tides, fit).1;
      var lists := SheetLists(tides, fit, thresholds);
      && (r.Failure? <==> Events.SomeListShort(lists, lows))
      && (r.Failure? ==> r.error == IndexOutOfRange)
      && (r.Success? ==> LowTideRows(r.value, lows))
      && (r.Success? ==> forall i :: 0 <= i < |lows| ==>
            Events.AllLonger(lists, i) && r.value[i] == SheetRow(Events.EventAt(lows, i, thresholds, lists, localDate, sunOn)))
  {
    var lows := ToolsLib.GetHiLoTides(tides, fit).1;
    var lists := SheetLists(tides, fit, thresholds);
    SheetRowsLowTides(lows, thresholds, lists, localDate, sunOn);
    SheetRows(lows, thresholds, lists, localDate, sunOn)
  }

  /** Row `i` of a built sheet has, under every threshold, the cells of
      entry `i` of that threshold's list; a repeated threshold takes its
      last list. */
  lemma {:induction false} SheetOfWindows(tides: seq<Measurement>, fit: Fitter, thresholds: seq<real>,
                                          localDate: Time -> int, sunOn: int -> Events.SunTimes, i: nat, j: int)
    requires var r := SheetOf(tides, fit, thresholds, localDate, sunOn);
      r.Success? && i < |r.value|
    requires Events.LastOccurrence(thresholds, j)
    ensures var r := SheetOf(tides, fit, thresholds, localDate, sunOn);
      var w := SheetLists(tides, fit, thresholds)[j][i];
      && Events.WindowsKey in r.value[i] && r.value[i][Events.WindowsKey].WindowsCell?
      && thresholds[j] in r.value[i][Events.WindowsKey].windows
      && r.value[i][Events.WindowsKey].windows[thresholds[j]] == Events.WindowCells(w.start, w.end, ApiModels.Hours(w))
  {
    var lows := ToolsLib.GetHiLoTides(tides, fit).1;
    var lists := SheetLists(tides, fit, thresholds);
    var e := Events.EventAt(lows, i, thresholds, lists, localDate, sunOn);
    Events.WindowsAtLast(thresholds, lists, i, j);
    SheetRowFields(e);
  }

  /** Built rows hold their low tides' times and heights. */
  lemma SheetRowsLowTides(lows: seq<Measurement>, thresholds: seq<real>, lists: seq<seq<Window>>,
                          localDate: Time -> int, sunOn: int -> Events.SunTimes)
    requires |thresholds| == |lists|
    ensures var r := SheetRows(lows, thresholds, lists, localDate, sunOn);
      r.Success? ==> LowTideRows(r.value, lows)
  {
    var r := SheetRows(lows, thresholds, lists, localDate, sunOn);
    if r.Success? {
      forall i | 0 <= i < |lows|
        ensures r.value[i][Events.Column("low_tide_time")] == Events.TimeCell(Some(lows[i].time))
        ensures r.value[i][Events.Column("low_tide_height_m")] == Events.HeightCell(lows[i].height)
      {
        SheetRowFields(Events.EventAt(lows, i, thresholds, lists, localDate, sunOn));
      }
    }
  }

  /** One row per low tide, in order, each holding its low tide's time and
      height. */
  predicate LowTideRows(rows: seq<map<Events.Key, Events.Cell>>, lows: seq<Measurement>) {
    && |rows| == |lows|
    && forall i :: 0 <= i < |lows| ==>
         && Events.Column("low_tide_time") in rows[i]
         && rows[i][Events.Column("low_tide_time")] == Events.TimeCell(Some(lows[i].time))
         && Events.Column("low_tide_height_m") in rows[i]
         && rows[i][Events.Column("low_tide_height_m")] == Events.HeightCell(lows[i].height)
  }

  /** The sun's times at one station, by local day. */
  function SunOn(sunAt: (Station, int) -> Events.SunTimes, station: Station): (f: int -> Events.SunTimes)
    ensures forall d :: f(d) == sunAt(station, d)
  {
    d => sunAt(station, d)
  }

  /** The sheet `get_data_sheet` returns, with the samples: find the station,
      download its samples and build the sheet. `sunAt` gives the sun's
      times at a station on a local day. */
  function DataSheet(response: Option<seq<Station>>, stationName: string, reMatch: (string, string) -> bool,
                     start: Time, end: Time, respond: (Time, Time) -> Option<seq<Measurement>>, fit: Fitter,
                     tideWindows: Option<seq<real>>, localDate: Time -> int,
                     sunAt: (Station, int) -> Events.SunTimes)
    : (r: Result<(seq<map<Events.Key, Events.Cell>>, seq<Measurement>)>)
    ensures response.None? ==> r == Failure(RequestFailed)
    ensures ToolsLib.GetStationByName(response, stationName, reMatch) == Success(None) ==> r == Failure(UnknownStation)
    ensures r.Success? ==> LowTideRows(r.value.0, ToolsLib.GetHiLoTides(r.value.1, fit).1)
    ensures var found := ToolsLib.GetStationByName(response, stationName, reMatch);
      found.Success? && found.value.Some? ==>
        var fetched := ToolsLib.TidesBetweenDates(found.value.value, start, end, ChunkReqSize, respond);
        && (fetched.Failure? ==> r == Failure(fetched.error))
        && (fetched.Success? ==>
              var thresholds := DefaultThresholds(tideWindows);
              var lows := ToolsLib.GetHiLoTides(fetched.value, fit).1;
              var lists := SheetLists(fetched.value, fit, thresholds);
              && (r.Failure? <==> Events.SomeListShort(lists, lows))
              && (r.Failure? ==> r.error == IndexOutOfRange)
              && (r.Success? ==> r.value.1 == fetched.value && forall i :: 0 <= i < |lows| ==>
                    Events.AllLonger(lists, i) && r.value.0[i] == SheetRow(Events.EventAt(lows, i, thresholds, lists, localDate, SunOn(sunAt, found.value.value)))))
  {
    match ToolsLib.GetStationByName(response, stationName, reMatch)
    case Failure(e) => Failure(e)
    case Success(None) => Failure(UnknownStation)
    case Success(Some(station)) =>
      match ToolsLib.TidesBetweenDates(station, start, end, ChunkReqSize, respond)
      case Failure(e) => Failure(e)
      case Success(tides) =>
        match SheetOf(tides, fit, DefaultThresholds(tideWindows), localDate, SunOn(sunAt, station))
        case Failure(e) => Failure(e)
        case Success(rows) => Success((rows, tides))
  }

  /** A row of the sheet: a dictionary the tool updates in place. */
  class Row {
    var fields: map<Events.Key, Events.Cell>

    constructor (fields: map<Events.Key, Events.Cell>)
      ensures this.fields == fields
    {
      this.fields := fields;
    }
  }

  /** The row loop of `get_data_sheet`: one fresh row per low tide; a window
      list without an entry for a row raises. */
  method BuildRows(lows: seq<Measurement>, thresholds: seq<real>, lists: seq<seq<Window>>,
                   localDate: Time -> int, sunOn: int -> Events.SunTimes) returns (r: Result<seq<Row>>)
    requires |thresholds| == |lists|
    ensures var spec := SheetRows(lows, thresholds, lists, localDate, sunOn);
      && (r.Failure? <==> spec.Failure?)
      && (r.Failure? ==> r.error == spec.error)
      && (r.Success? ==> |r.value| == |spec.value|)
      && (r.Success? ==> forall i :: 0 <= i < |r.value| ==> fresh(r.value[i]) && r.value[i].fields == spec.value[i])
    ensures r.Success? ==> forall i, j :: 0 <= i < j < |r.value| ==> r.value[i] != r.value[j]
  {
    var sheet: seq<Row> := [];
    var i := 0;
    while i < |lows|
      invariant 0 <= i <= |lows| && |sheet| == i
      invariant forall j :: 0 <= j < |lists| ==> i <= |lists[j]|
      invariant forall k :: 0 <= k < i ==>
        fresh(sheet[k]) && Events.AllLonger(lists, k)
        && sheet[k].fields == SheetRow(Events.EventAt(lows, k, thresholds, lists, localDate, sunOn))
      invariant forall k, l :: 0 <= k < l < i ==> sheet[k] != sheet[l]
    {
      if !Events.AllLonger(lists, i) {
        var j :| 0 <= j < |lists| && |lists[j]| <= i;
        assert |lists[j]| < |lows|;
        return Failure(IndexOutOfRange);
      }
      var row := new Row(SheetRow(Events.EventAt(lows, i, thresholds, lists, localDate, sunOn)));
      sheet := sheet + [row];
      i := i + 1;
    }
    assert !Events.SomeListShort(lists, lows);
    r := Success(sheet);
  }

  /** `get_data_sheet`. */
  method GetDataSheet(response: Option<seq<Station>>, stationName: string, reMatch: (string, string) -> bool,
                      start: Time, end: Time, respond: (Time, Time) -> Option<seq<Measurement>>, fit: Fitter,
                      tideWindows: Option<seq<real>>, localDate: Time -> int,
                      sunAt: (Station, int) -> Events.SunTimes)
    returns (r: Result<(seq<Row>, seq<Measurement>)>)
    ensures var spec := DataSheet(response, stationName, reMatch, start, end, respond, fit, tideWindows, localDate, sunAt);
      && (r.Failure? <==> spec.Failure?)
      && (r.Failure? ==> r.error == spec.error)
      && (r.Success? ==> r.value.1 == spec.value.1 && |r.value.0| == |spec.value.0|)
      && (r.Success? ==> forall i :: 0 <= i < |r.value.0| ==> fresh(r.value.0[i]) && r.value.0[i].fields == spec.value.0[i])
    ensures r.Success? ==> forall i, j :: 0 <= i < j < |r.value.0| ==> r.value.0[i] != r.value.0[j]
  {
    var thresholds := DefaultThresholds(tideWindows);
    var found := ToolsLib.GetStationByName(response, stationName, reMatch);
    if found.Failure? {
      return Failure(found.error);
    }
    if found.value.None? {
      return Failure(UnknownStation);
    }
    var station := found.value.value;
    var fetched := ToolsLib.GetTidesBetweenDates(station, start, end, ChunkReqSize, respond);
    if fetched.Failure? {
      return Failure(fetched.error);
    }
    var tides := fetched.value;
    var rows := SheetFor(tides, fit, thresholds, localDate, SunOn(sunAt, station));
    if rows.Failure? {
      return Failure(rows.error);
    }
    r := Success((rows.value, tides));
  }

  /** The part of `get_data_sheet` after the download: classify, one window
      list per threshold, the shift, and the row loop. */
  method SheetFor(tides: seq<Measurement>, fit: Fitter, thresholds: seq<real>,
                  localDate: Time -> int, sunOn: int -> Events.SunTimes) returns (r: Result<seq<Row>>)
    ensures var spec := SheetOf(tides, fit, thresholds, localDate, sunOn);
      && (r.Failure? <==> spec.Failure?)
      && (r.Failure? ==> r.error == spec.error)
      && (r.Success? ==> |r.value| == |spec.value|)
      && (r.Success? ==> forall i :: 0 <= i < |r.value| ==> fresh(r.value[i]) && r.value[i].fields == spec.value[i])
    ensures r.Success? ==> forall i, j :: 0 <= i < j < |r.value| ==> r.value[i] != r.value[j]
  {
    var (highTides, lowTides) := ToolsLib.GetHiLoTides(tides, fit);
    var windowsXm: seq<seq<Window>> := [];
    var j := 0;
    while j < |thresholds|
      invariant 0 <= j <= |thresholds| && |windowsXm| == j
      invariant forall k :: 0 <= k < j ==> windowsXm[k] == Windows.TideWindows(tides, highTides, thresholds[k], fit)
    {
      var ws := ToolsLib.FindTideWindows(tides, thresholds[j], fit);
      windowsXm := windowsXm + [ws];
      j := j + 1;
    }
    assert windowsXm == seq(|thresholds|, k requires 0 <= k < |thresholds| =>
      Windows.TideWindows(tides, highTides, thresholds[k], fit));
    r := BuildRows(lowTides, thresholds, Events.AlignWindows(highTides, lowTides, windowsXm), localDate, sunOn);
  }

  /** `expand_windows` on the tool's rows: each row, in place, gets three
      columns per window and loses `windows`; the same list comes back. */
  method ExpandWindows(sheet: seq<Row>) returns (result: seq<Row>)
    requires forall i :: 0 <= i < |sheet| ==> Events.HasWindows(sheet[i].fields)
    requires forall i, j :: 0 <= i < j < |sheet| ==> sheet[i] != sheet[j]
    modifies set i | 0 <= i < |sheet| :: sheet[i]
    ensures result == sheet
    ensures forall i :: 0 <= i < |sheet| ==> sheet[i].fields == Events.Expanded(old(sheet[i].fields))
  {
    var i := 0;
    while i < |sheet|
      invariant 0 <= i <= |sheet|
      invariant forall k :: 0 <= k < i ==> sheet[k].fields == Events.Expanded(old(sheet[k].fields))
      invariant forall k :: i <= k < |sheet| ==> sheet[k].fields == old(sheet[k].fields)
    {
      var row := sheet[i];
      row.fields := Events.ExpandFields(row.fields);
      i := i + 1;
    }
    result := sheet;
  }
}
