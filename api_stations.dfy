/** tide_api/stations.py: the station list and the lookup by name over it. */
module ApiStations {
  import opened Common
  import Registry

  /** `get_station_options`: sort the registry's stations by name and keep
      those with a water-level series. `response` is None when the request
      failed. */
  function GetStationOptions(response: Option<seq<Station>>): (r: Result<seq<Station>>)
    ensures r.Failure? <==> response.None?
    ensures r.Failure? ==> r.error == RequestFailed
    ensures r.Success? ==> Registry.SortedByName(r.value)
    ensures r.Success? ==> forall s :: s in r.value ==> HasWaterLevel(s)
    ensures r.Success? ==> multiset(r.value) == multiset(Registry.Filter(HasWaterLevel, response.value))
  {
    match response
    case None => Failure(RequestFailed)
    case Some(raw) =>
      var sorted := Registry.SortByName(raw);
      Registry.FilterSorted(HasWaterLevel, sorted);
      Registry.FilterPermutation(HasWaterLevel, sorted, raw);
      Success(Registry.Filter(HasWaterLevel, sorted))
  }

  /** Exactly the input stations with a water-level series come out, each as
      often as it went in. */
  lemma StationOptionsExact(raw: seq<Station>, s: Station)
    ensures GetStationOptions(Some(raw)).Success?
    ensures multiset(GetStationOptions(Some(raw)).value)[s]
      == if HasWaterLevel(s) then multiset(raw)[s] else 0
  {
    Registry.FilterCount(HasWaterLevel, raw, s);
  }

  /** `get_station_by_name`: the first station of `STATIONS` whose name the
      pattern matches, else None. */
  function GetStationByName(stations: seq<Station>, stationName: string, reMatch: (string, string) -> bool)
    : (r: Option<Station>)
    ensures r.None? <==> forall i :: 0 <= i < |stations| ==> !reMatch(stationName, stations[i].name)
    ensures r.Some? ==> exists i :: (0 <= i < |stations| && stations[i] == r.value
      && reMatch(stationName, r.value.name)
      && forall j :: 0 <= j < i ==> !reMatch(stationName, stations[j].name))
  {
    match Registry.FirstMatch(stations, (s: Station) => reMatch(stationName, s.name))
    case None => None
    case Some(i) => Some(stations[i])
  }
}
