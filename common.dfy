/** Values shared by every part of the tide model: times, samples, windows,
    station records, results, and the interface of the spline library. */
module Common {

  /** A time as whole seconds since the epoch. */
  type Time = int

  /** Seconds in `timedelta(minutes=1)` and in `timedelta(days=1)`. */
  const Minute: int := 60
  const Day: int := 86400

  /** Seconds in `timedelta(minutes=15)`, the sampling step of the series. */
  const Quarter: int := 15 * Minute

  function Min(a: int, b: int): int { if a <= b then a else b }

  datatype Option<T> = None | Some(value: T)

  /** The exceptions the modelled code raises, one constructor per distinct cause. */
  datatype Error =
    | InvalidRange     // "End date must be after start date"
    | OutOfRange       // "Time is out of range"
    | NoData           // "No tide data available for interpolation"
    | MissingSeries    // "Station does not have water level data"
    | IndexOutOfRange  // a window list shorter than the low-tide list (IndexError)
    | ZeroStep         // `range(0, n, 0)` (ValueError)
    | RequestFailed    // a request to the station registry did not succeed
    | UnknownStation   // no station matched the name (an AttributeError on None)

  datatype Result<T> = Success(value: T) | Failure(error: Error)

  /** A water-level sample, or a derived high or low tide: a time and a height. */
  datatype Measurement = Measurement(time: Time, height: real)

  /** A threshold window; either end may be missing. */
  datatype Window = Window(start: Option<Time>, end: Option<Time>)

  /** A station as the registry reports it (only the fields these operations read). */
  datatype Station = Station(
    id: string,
    name: string,
    kind: string,          // the registry's "type"
    operating: bool,
    latitude: real,
    longitude: real,
    seriesCodes: seq<string>)

  /** The station publishes water-level predictions (a series with code "wlp"). */
  predicate HasWaterLevel(s: Station) {
    "wlp" in s.seriesCodes
  }

  /** A fitted curve as the spline library returns it: its value at any time
      and the ascending list of times where it is zero. */
  datatype Curve = Curve(at: Time -> real, roots: seq<Time>)

  /** A spline through a series together with its first derivative. */
  datatype Spline = Spline(curve: Curve, derivative: Curve)

  /** The spline library: (timestamps, values, degree) to a fitted spline. */
  type Fitter = (seq<Time>, seq<real>, nat) -> Spline

  function Times(s: seq<Measurement>): seq<Time> {
    seq(|s|, i requires 0 <= i < |s| => s[i].time)
  }

  function Heights(s: seq<Measurement>): seq<real> {
    seq(|s|, i requires 0 <= i < |s| => s[i].height)
  }

  /** Times never go backwards along a list (the order the partitioning assumes). */
  predicate Ascending(ts: seq<Time>) {
    forall i, j :: 0 <= i < j < |ts| ==> ts[i] <= ts[j]
  }

  predicate StrictlyAscending(ts: seq<Time>) {
    forall i, j :: 0 <= i < j < |ts| ==> ts[i] < ts[j]
  }
}
