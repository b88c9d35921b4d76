/** tide_api/models.py: the window duration, the station lookup by name and
    the filtered, sorted station list. */
module ApiModels {
  import opened Common
  import Registry

  /** `timedelta.seconds`: the within-day seconds of a difference, after
      Python normalises it to whole days plus a non-negative remainder. */
  function WithinDaySeconds(delta: int): (s: int)
    ensures 0 <= s < Day
    ensures exists days :: delta == days * Day + s
  {
    var days := delta / Day;
    assert delta == days * Day + delta % Day;
    delta % Day
  }

  /** `TideWindow.hours`: `(end - start).seconds / 60 / 60`, or None when an
      end is missing. */
  function Hours(w: Window): (r: Option<real>)
    ensures r.None? <==> w.start.None? || w.end.None?
    ensures r.Some? ==> 0.0 <= r.value < 24.0
  {
    if w.start.None? || w.end.None? then None
    else Some(WithinDaySeconds(w.end.value - w.start.value) as real / 3600.0)
  }

  /** Under a day apart, the hours are exactly the elapsed time. */
  lemma HoursExact(start: Time, end: Time)
    requires 0 <= end - start < Day
    ensures Hours(Window(Some(start), Some(end))) == Some((end - start) as real / 3600.0)
  {
    var d := end - start;
    assert d / Day == 0;
  }

  /** A day or more apart, the whole days are lost: the duration wraps. */
  lemma HoursWrap(start: Time, end: Time, days: int)
    ensures Hours(Window(Some(start), Some(end + days * Day))) == Hours(Window(Some(start), Some(end)))
  {
    var d := end - start;
    var s := WithinDaySeconds(d);
    var q :| d == q * Day + s;
    assert end + days * Day - start == (q + days) * Day + s;
    ModuloUnique(end + days * Day - start, q + days, s);
  }

  lemma ModuloUnique(x: int, q: int, s: int)
    requires 0 <= s < Day && x == q * Day + s
    ensures x % Day == s
  {
  }

  /** The registry's active flag filter: not discontinued and, as written,
      `not s["operating"]`. */
  predicate IsListed(s: Station) {
    s.kind != "DISCONTINUED" && !s.operating
  }

  predicate IsListedWithWaterLevel(s: Station) {
    IsListed(s) && HasWaterLevel(s)
  }

  /** `get_station_options`: filter on the raw records, sort by name, keep the
      stations with a water-level series. `response` is the registry's reply,
      None when the request failed. */
  function GetStationOptions(response: Option<seq<Station>>): (r: Result<seq<Station>>)
    ensures r.Failure? <==> response.None?
    ensures r.Failure? ==> r.error == RequestFailed
    ensures r.Success? ==> Registry.SortedByName(r.value)
    ensures r.Success? ==> forall s :: s in r.value ==> IsListed(s) && HasWaterLevel(s)
    ensures r.Success? ==>
      multiset(r.value) == multiset(Registry.Filter(IsListedWithWaterLevel, response.value))
  {
    match response
    case None => Failure(RequestFailed)
    case Some(raw) =>
      ListingPipeline(raw);
      Success(Registry.Filter(HasWaterLevel, Registry.SortByName(Registry.Filter(IsListed, raw))))
  }

  lemma ListingPipeline(raw: seq<Station>)
    ensures var out := Registry.Filter(HasWaterLevel, Registry.SortByName(Registry.Filter(IsListed, raw)));
      && Registry.SortedByName(out)
      && (forall s :: s in out ==> IsListed(s) && HasWaterLevel(s))
      && multiset(out) == multiset(Registry.Filter(IsListedWithWaterLevel, raw))
  {
    var listed := Registry.Filter(IsListed, raw);
    var sorted := Registry.SortByName(listed);
    var out := Registry.Filter(HasWaterLevel, sorted);
    Registry.FilterSorted(HasWaterLevel, sorted);
    Registry.FilterPermutation(HasWaterLevel, sorted, listed);
    Registry.FilterFilter(IsListed, HasWaterLevel, IsListedWithWaterLevel, raw);
    var both := Registry.Filter(IsListedWithWaterLevel, raw);
    assert multiset(out) == multiset(both);
    forall s | s in out ensures IsListed(s) {
      assert s in multiset(out);
      assert s in multiset(both);
      assert s in both;
    }
  }

  /** `FullStation.from_name`: the first station, in registry order, whose name
      the pattern matches; None when none does. */
  function FromName(stations: seq<Station>, name: string, reMatch: (string, string) -> bool): (r: Option<Station>)
    ensures r.None? <==> forall i :: 0 <= i < |stations| ==> !reMatch(name, stations[i].name)
    ensures r.Some? ==> exists i :: (0 <= i < |stations| && stations[i] == r.value
      && reMatch(name, r.value.name)
      && forall j :: 0 <= j < i ==> !reMatch(name, stations[j].name))
  {
    match Registry.FirstMatch(stations, (s: Station) => reMatch(name, s.name))
    case None => None
    case Some(i) => Some(stations[i])
  }
}
