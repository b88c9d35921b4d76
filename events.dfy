/** Assembling one event row per low tide (`low_tide_events` in tide_api/lib.py,
    `get_data_sheet` in tide_tools/get_tide_sheet.py) and flattening the rows'
    window dictionaries into columns (`expand_windows`). */
module Events {
  import opened Common
  import ApiModels

  /** Sunrise, solar noon and sunset of a local date; each is None where the
      astronomy library raises for that date. */
  datatype SunTimes = SunTimes(sunrise: Option<Time>, noon: Option<Time>, sunset: Option<Time>)

  /** A `TideEvent`: a low tide, its local date, the sun's times that day and
      one window per threshold (keyed by the threshold itself). */
  datatype TideEvent = TideEvent(
    lowTideDate: int,
    lowTideHeight: real,
    lowTideTime: Time,
    sunrise: Option<Time>,
    noon: Option<Time>,
    sunset: Option<Time>,
    windows: map<real, Window>)

  /** The first high tide comes before the first low tide, so the first
      partition holds no low tide. */
  predicate HighTideFirst(highs: seq<Measurement>, lows: seq<Measurement>) {
    |lows| > 0 && |highs| > 0 && highs[0].time < lows[0].time
  }

  /** Python's `w[1:]`. */
  function DropFirst(w: seq<Window>): seq<Window> {
    if w == [] then [] else w[1..]
  }

  /** The correction: when the first high tide precedes the first low tide,
      every threshold's window list loses its first window; otherwise none
      changes. */
  function AlignWindows(highs: seq<Measurement>, lows: seq<Measurement>, lists: seq<seq<Window>>)
    : (r: seq<seq<Window>>)
    ensures |r| == |lists|
    ensures HighTideFirst(highs, lows) ==> forall j :: 0 <= j < |lists| ==>
      (lists[j] == [] ==> r[j] == []) && (lists[j] != [] ==> lists[j] == [lists[j][0]] + r[j])
    ensures !HighTideFirst(highs, lows) ==> r == lists
  {
    if HighTideFirst(highs, lows) then
      var r := seq(|lists|, j requires 0 <= j < |lists| => DropFirst(lists[j]));
      assert forall j :: 0 <= j < |lists| && lists[j] != [] ==> lists[j] == [lists[j][0]] + lists[j][1..];
      r
    else lists
  }

  /** Every window list has an entry for row `i`. */
  predicate AllLonger(lists: seq<seq<Window>>, i: nat) {
    forall j :: 0 <= j < |lists| ==> i < |lists[j]|
  }

  /** Some window list is shorter than the list of low tides. */
  predicate SomeListShort(lists: seq<seq<Window>>, lows: seq<Measurement>) {
    exists j :: 0 <= j < |lists| && |lists[j]| < |lows|
  }

  /** Index `j` holds the last occurrence of its threshold. */
  predicate LastOccurrence(thresholds: seq<real>, j: int) {
    0 <= j < |thresholds| && forall j' :: j < j' < |thresholds| ==> thresholds[j'] != thresholds[j]
  }

  /** The `windows` dictionary of row `i`: `dict((wk, wvi[i]) for wk, wvi in
      zip(thresholds, lists))`. */
  function WindowsAt(thresholds: seq<real>, lists: seq<seq<Window>>, i: nat): (m: map<real, Window>)
    requires |thresholds| == |lists| && AllLonger(lists, i)
    ensures forall k :: k in m <==> k in thresholds
    decreases |thresholds|
  {
    if thresholds == [] then map[]
    else
      var n := |thresholds| - 1;
      assert AllLonger(lists[..n], i) by {
        assert forall j :: 0 <= j < n ==> lists[..n][j] == lists[j];
      }
      var m := WindowsAt(thresholds[..n], lists[..n], i);
      assert forall k :: k in thresholds <==> k in thresholds[..n] || k == thresholds[n];
      m[thresholds[n] := lists[n][i]]
  }

  /** A repeated threshold keeps the window of its last occurrence. */
  lemma {:induction false} WindowsAtLast(thresholds: seq<real>, lists: seq<seq<Window>>, i: nat, j: int)
    requires |thresholds| == |lists| && AllLonger(lists, i)
    requires LastOccurrence(thresholds, j)
    ensures thresholds[j] in WindowsAt(thresholds, lists, i)
    ensures WindowsAt(thresholds, lists, i)[thresholds[j]] == lists[j][i]
    decreases |thresholds|
  {
    var n := |thresholds| - 1;
    if j < n {
      assert AllLonger(lists[..n], i) by {
        assert forall j :: 0 <= j < n ==> lists[..n][j] == lists[j];
      }
      assert LastOccurrence(thresholds[..n], j);
      WindowsAtLast(thresholds[..n], lists[..n], i, j);
      assert thresholds[n] != thresholds[j];
    }
  }

  /** Row `i`: the low tide, its local date, that date's sun times and the
      windows of index `i`. */
  function EventAt(lows: seq<Measurement>, i: nat, thresholds: seq<real>, lists: seq<seq<Window>>,
                   localDate: Time -> int, sunOn: int -> SunTimes): (e: TideEvent)
    requires i < |lows| && |thresholds| == |lists| && AllLonger(lists, i)
    ensures e.lowTideTime == lows[i].time && e.lowTideHeight == lows[i].height
    ensures e.lowTideDate == localDate(lows[i].time)
    ensures e.sunrise == sunOn(e.lowTideDate).sunrise && e.noon == sunOn(e.lowTideDate).noon
      && e.sunset == sunOn(e.lowTideDate).sunset
    ensures forall k :: k in e.windows <==> k in thresholds
    ensures e.windows == WindowsAt(thresholds, lists, i)
  {
    var lt := lows[i];
    var date := localDate(lt.time);
    var sun := sunOn(date);
    var ws := WindowsAt(thresholds, lists, i);
    TideEvent(date, lt.height, lt.time, sun.sunrise, sun.noon, sun.sunset, ws)
  }

  /** The events of a low-tide list: one per low tide, in order, row `i` taking
      window `i` of every list; an IndexError when some list is too short. */
  function Events(lows: seq<Measurement>, thresholds: seq<real>, lists: seq<seq<Window>>,
                  localDate: Time -> int, sunOn: int -> SunTimes): (r: Result<seq<TideEvent>>)
    requires |thresholds| == |lists|
    ensures r.Failure? <==> SomeListShort(lists, lows)
    ensures r.Failure? ==> r.error == IndexOutOfRange
    ensures r.Success? ==> |r.value| == |lows|
    ensures r.Success? ==> forall i :: 0 <= i < |lows| ==>
      AllLonger(lists, i) && r.value[i] == EventAt(lows, i, thresholds, lists, localDate, sunOn)
  {
    if SomeListShort(lists, lows) then Failure(IndexOutOfRange)
    else Success(seq(|lows|, i requires 0 <= i < |lows| => EventAt(lows, i, thresholds, lists, localDate, sunOn)))
  }

  /** The row loop: append one event per low tide; evaluating window `i` of a
      list with no such entry raises. */
  method BuildEvents(lows: seq<Measurement>, thresholds: seq<real>, lists: seq<seq<Window>>,
                     localDate: Time -> int, sunOn: int -> SunTimes) returns (r: Result<seq<TideEvent>>)
    requires |thresholds| == |lists|
    ensures r == Events(lows, thresholds, lists, localDate, sunOn)
  {
    var events: seq<TideEvent> := [];
    var i := 0;
    while i < |lows|
      invariant 0 <= i <= |lows|
      invariant |events| == i
      invariant forall j :: 0 <= j < |lists| ==> i <= |lists[j]|
      invariant forall k :: 0 <= k < i ==>
        AllLonger(lists, k) && events[k] == EventAt(lows, k, thresholds, lists, localDate, sunOn)
    {
      if !AllLonger(lists, i) {
        var j :| 0 <= j < |lists| && |lists[j]| <= i;
        assert |lists[j]| < |lows|;
        return Failure(IndexOutOfRange);
      }
      events := events + [EventAt(lows, i, thresholds, lists, localDate, sunOn)];
      i := i + 1;
    }
    assert !SomeListShort(lists, lows);
    var spec := Events(lows, thresholds, lists, localDate, sunOn);
    assert spec.value == events;
    r := Success(events);
  }

  /** Dictionary keys of an event row: a named column, or one of the three
      columns `expand_windows` adds per window label. */
  datatype Key = Column(name: string) | WindowStart(threshold: real) | WindowEnd(threshold: real) | HoursUnder(threshold: real)

  const WindowsKey: Key := Column("windows")

  /** One window as a nested dictionary: `dict(start=..., end=..., hours=...)`. */
  datatype WindowCells = WindowCells(start: Option<Time>, end: Option<Time>, hours: Option<real>)

  /** The values a row holds. */
  datatype Cell =
    | DateCell(day: int)
    | HeightCell(height: real)
    | TimeCell(time: Option<Time>)
    | HoursCell(hours: Option<real>)
    | WindowsCell(windows: map<real, WindowCells>)

  predicate HasWindows(fields: map<Key, Cell>) {
    WindowsKey in fields && fields[WindowsKey].WindowsCell?
  }

  function CellsOf(w: Window): WindowCells {
    WindowCells(w.start, w.end, ApiModels.Hours(w))
  }

  /** An event as a dictionary (`TideEvent.dict()`, or the row built directly). */
  function EventFields(e: TideEvent): (fields: map<Key, Cell>)
    ensures HasWindows(fields)
    ensures fields[WindowsKey].windows.Keys == e.windows.Keys
  {
    map[
      Column("low_tide_date") := DateCell(e.lowTideDate),
      Column("low_tide_height_m") := HeightCell(e.lowTideHeight),
      Column("low_tide_time") := TimeCell(Some(e.lowTideTime)),
      Column("sunrise") := TimeCell(e.sunrise),
      Column("noon") := TimeCell(e.noon),
      Column("sunset") := TimeCell(e.sunset),
      WindowsKey := WindowsCell(map l | l in e.windows :: CellsOf(e.windows[l]))]
  }

  /** The key is one of the three columns added for a label in `done`. */
  predicate IsColumnOf(key: Key, done: set<real>) {
    match key
    case Column(_) => false
    case WindowStart(l) => l in done
    case WindowEnd(l) => l in done
    case HoursUnder(l) => l in done
  }

  lemma ColumnIn(key: Key, done: set<real>)
    requires IsColumnOf(key, done)
    ensures key in (set l | l in done :: WindowStart(l)) + (set l | l in done :: WindowEnd(l))
      + (set l | l in done :: HoursUnder(l))
  {
    match key
    case WindowStart(l) => assert WindowStart(l) in (set l | l in done :: WindowStart(l));
    case WindowEnd(l) => assert WindowEnd(l) in (set l | l in done :: WindowEnd(l));
    case HoursUnder(l) => assert HoursUnder(l) in (set l | l in done :: HoursUnder(l));
  }

  /** The three columns added for the labels in `done`. */
  function Columns(done: set<real>): (r: set<Key>)
    ensures forall key :: key in r <==> IsColumnOf(key, done)
  {
    var r := (set l | l in done :: WindowStart(l)) + (set l | l in done :: WindowEnd(l))
      + (set l | l in done :: HoursUnder(l));
    forall key | IsColumnOf(key, done) ensures key in r {
      ColumnIn(key, done);
    }
    r
  }

  /** The value of `key` once the labels in `done` have been copied out. */
  function ColumnValue(fields: map<Key, Cell>, ws: map<real, WindowCells>, done: set<real>, key: Key): Cell
    requires done <= ws.Keys && (key in fields || IsColumnOf(key, done))
  {
    match key
    case WindowStart(l) => if l in done then TimeCell(ws[l].start) else fields[key]
    case WindowEnd(l) => if l in done then TimeCell(ws[l].end) else fields[key]
    case HoursUnder(l) => if l in done then HoursCell(ws[l].hours) else fields[key]
    case Column(_) => fields[key]
  }

  /** `fields` once the labels in `done` have had their three columns set. */
  function Overlay(fields: map<Key, Cell>, ws: map<real, WindowCells>, done: set<real>): map<Key, Cell>
    requires done <= ws.Keys
  {
    map key | key in fields.Keys + Columns(done) :: ColumnValue(fields, ws, done, key)
  }

  /** One row after `expand_windows`: three columns per window label, the
      `windows` entry gone and every other entry as it was. */
  function Expanded(fields: map<Key, Cell>): (r: map<Key, Cell>)
    requires HasWindows(fields)
    ensures WindowsKey !in r
    ensures var ws := fields[WindowsKey].windows;
      forall l :: l in ws ==>
        && WindowStart(l) in r && r[WindowStart(l)] == TimeCell(ws[l].start)
        && WindowEnd(l) in r && r[WindowEnd(l)] == TimeCell(ws[l].end)
        && HoursUnder(l) in r && r[HoursUnder(l)] == HoursCell(ws[l].hours)
    ensures var ws := fields[WindowsKey].windows;
      forall key :: key in fields && key != WindowsKey && !IsColumnOf(key, ws.Keys) ==> key in r && r[key] == fields[key]
    ensures var ws := fields[WindowsKey].windows;
      r.Keys == fields.Keys - {WindowsKey} + Columns(ws.Keys)
  {
    var ws := fields[WindowsKey].windows;
    var o := Overlay(fields, ws, ws.Keys);
    OverlayFacts(fields, ws, ws.Keys);
    var r := o - {WindowsKey};
    assert forall key :: key in r <==> key in o && key != WindowsKey;
    assert forall key :: key in r ==> r[key] == o[key];
    r
  }

  /** The overlay holds the three columns of every label in `done`, leaves
      every other entry alone, and adds no other key. */
  lemma OverlayFacts(fields: map<Key, Cell>, ws: map<real, WindowCells>, done: set<real>)
    requires done <= ws.Keys
    ensures var o := Overlay(fields, ws, done);
      && o.Keys == fields.Keys + Columns(done)
      && (forall l :: l in done ==>
            && WindowStart(l) in o && o[WindowStart(l)] == TimeCell(ws[l].start)
            && WindowEnd(l) in o && o[WindowEnd(l)] == TimeCell(ws[l].end)
            && HoursUnder(l) in o && o[HoursUnder(l)] == HoursCell(ws[l].hours))
      && (forall key :: key in fields && !IsColumnOf(key, done) ==> o[key] == fields[key])
  {
    var o := Overlay(fields, ws, done);
    forall l | l in done
      ensures WindowStart(l) in o && WindowEnd(l) in o && HoursUnder(l) in o
    {
      assert IsColumnOf(WindowStart(l), done) && IsColumnOf(WindowEnd(l), done) && IsColumnOf(HoursUnder(l), done);
    }
    forall key | key in fields && !IsColumnOf(key, done) ensures o[key] == fields[key] {
      match key
      case Column(_) =>
      case WindowStart(_) =>
      case WindowEnd(_) =>
      case HoursUnder(_) =>
    }
  }

  lemma OverlayEmpty(fields: map<Key, Cell>, ws: map<real, WindowCells>)
    ensures Overlay(fields, ws, {}) == fields
  {
    assert Columns({}) == {};
  }

  /** One key of the overlay. */
  lemma OverlayAt(fields: map<Key, Cell>, ws: map<real, WindowCells>, done: set<real>, key: Key)
    requires done <= ws.Keys
    ensures key in Overlay(fields, ws, done) <==> key in fields || IsColumnOf(key, done)
    ensures key in Overlay(fields, ws, done) ==> Overlay(fields, ws, done)[key] == ColumnValue(fields, ws, done, key)
  {
  }

  lemma OverlayStep(fields: map<Key, Cell>, ws: map<real, WindowCells>, done: set<real>, l: real)
    requires done <= ws.Keys && l in ws && l !in done
    ensures Overlay(fields, ws, done + {l}) ==
      Overlay(fields, ws, done)[WindowStart(l) := TimeCell(ws[l].start)]
        [WindowEnd(l) := TimeCell(ws[l].end)][HoursUnder(l) := HoursCell(ws[l].hours)]
  {
    var before := Overlay(fields, ws, done);
    var a := Overlay(fields, ws, done + {l});
    var b := before[WindowStart(l) := TimeCell(ws[l].start)]
      [WindowEnd(l) := TimeCell(ws[l].end)][HoursUnder(l) := HoursCell(ws[l].hours)];
    forall key ensures (key in a <==> key in b) && (key in a ==> a[key] == b[key]) {
      OverlayAt(fields, ws, done, key);
      OverlayAt(fields, ws, done + {l}, key);
    }
    assert a == b;
  }

  /** After expansion an event's row holds each window's start, end and
      hours in its own columns, next to the event's named columns. */
  lemma ExpandedEvent(e: TideEvent, l: real)
    requires l in e.windows
    ensures var r := Expanded(EventFields(e));
      && r[WindowStart(l)] == TimeCell(e.windows[l].start)
      && r[WindowEnd(l)] == TimeCell(e.windows[l].end)
      && r[HoursUnder(l)] == HoursCell(ApiModels.Hours(e.windows[l]))
      && r[Column("low_tide_time")] == TimeCell(Some(e.lowTideTime))
      && r[Column("low_tide_height_m")] == HeightCell(e.lowTideHeight)
      && WindowsKey !in r
  {
    var fields := EventFields(e);
    assert Column("low_tide_time") in fields && Column("low_tide_height_m") in fields;
  }

  /** Only a proof step: a non-empty set has an element, for the `:|` of
      `ExpandFields`. */
  lemma HasElement(s: set<real>)
    requires s != {}
    ensures exists x :: x in s
  {
    if forall x :: x !in s {
      assert false;
    }
  }

  /** The inner loop of `expand_windows` on one row: copy each window's start,
      end and hours into their own columns, then delete `windows`. */
  method ExpandFields(fields: map<Key, Cell>) returns (r: map<Key, Cell>)
    requires HasWindows(fields)
    ensures r == Expanded(fields)
  {
    var ws := fields[WindowsKey].windows;
    var todo := ws.Keys;
    ghost var done: set<real> := {};
    r := fields;
    OverlayEmpty(fields, ws);
    while todo != {}
      invariant todo + done == ws.Keys && todo !! done
      invariant r == Overlay(fields, ws, done)
      decreases todo
    {
      HasElement(todo);
      var l :| l in todo;
      OverlayStep(fields, ws, done, l);
      r := r[WindowStart(l) := TimeCell(ws[l].start)];
      r := r[WindowEnd(l) := TimeCell(ws[l].end)];
      r := r[HoursUnder(l) := HoursCell(ws[l].hours)];
      todo := todo - {l};
      done := done + {l};
    }
    r := r - {WindowsKey};
  }
}
