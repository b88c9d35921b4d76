# Tide windows: a Dafny model

This project models HakaiInstitute/tides_api, in two parts:

- **tide_api**, the web service (`StationTides` and helpers).
- **tide_tools**, the older command-line tool (`get_data_sheet` and helpers).

Both download a station's 15-minute water-level predictions and fit a spline to them. The derivative's roots become high and low tides. The series is cut at the high tides into "low-tide partitions". For each height threshold, each partition gets one window: the span during which the water is below the threshold. Each low tide becomes one event row, which also carries the day's sunrise, noon and sunset.

The verified model covers all the discrete decisions around the numerical library:

- the partitioning loop;
- the extremum sign tests;
- the root-count window rule;
- the "first high tide before first low tide" shift of every window list;
- row assembly, and flattening of the window dictionaries into columns;
- the point-query guards and nearest-sample fallback;
- the lazy caches of `StationTides`;
- the day-chunking of download requests;
- the station pipelines: filter, sort, and first match.

The spline library is an oracle. `Fitter` takes timestamps, values and a degree and returns a `Spline`: a curve and its derivative. Each of those is a value function plus a root list. Times are whole seconds; heights are reals.

Modules:

- `Common`: shared values.
- `Partition`: `split_tides_by_datetimes`. Both copies are identical, so one model serves both.
- `Extrema`: root selection.
- `Windows`: the window rule, shared by `detect_tide_windows` and `find_tide_windows`.
- `Fetch`: the request loop.
- `Events`: the drop correction, event rows and `expand_windows`.
- `Registry`: string order, sort, filter, first match.
- `ApiModels`, `ApiStations`, `ApiLib`: the three tide_api files.
- `ToolsLib`, `TideSheet`: the two tide_tools files.

Behaviour of the code that the model follows on purpose:

- `get_tide_at_time` rejects times outside [start date, end date] of the object (tide_api/lib.py:56). It does not use the first and last sample times.
- `find_tide_windows` passes the literal degree 3. `detect_tide_windows` passes `min(3, n - 1)`. Both run only on partitions of more than three samples, so the two are equal, and one `Windows.PartitionWindow` models both.
- `get_station_options` in tide_api/models.py keeps stations whose `operating` flag is false (`not s["operating"]`). The model states exactly that.

## Model

| member | source | states |
|---|---|---|
| Partition.CutIndex | tide_api/lib.py:287-290 | the cut is the first index whose time is strictly after the datetime, or the length; every earlier sample is at or before it |
| Partition.CutIndexUnique | tide_api/lib.py:287-290 | any index with that boundary property is the cut index |
| Partition.CutIndexMonotone | tide_api/lib.py:287-290 | a later datetime never gives an earlier cut |
| Partition.Split | tide_api/lib.py:284-298 | at least one partition; with no datetimes the result is the whole list |
| Partition.SplitConcat | tide_api/lib.py:280-300 | for ascending datetimes, concatenating the partitions gives back the input exactly |
| Partition.SplitOnlyLastEmpty | tide_api/lib.py:291-298 | for ascending datetimes only the final partition can be empty, since repeated cut indices are skipped |
| Partition.SplitCount | tide_api/lib.py:291-298 | for ascending datetimes, the partition count is one more than the number of distinct non-zero cut indices |
| Partition.SplitTidesByDatetimes | tide_api/lib.py:280-300 | the loop (same as tide_tools/lib.py:137-157) returns exactly `Split` |
| Extrema.Select | tide_api/lib.py:121-130 | a measurement is in the output iff its time is a root that passes the test and its height is the curve there; never longer than the roots |
| Extrema.SelectAscending | tide_api/lib.py:121-130 | with strictly ascending roots the selection is in strictly increasing time order |
| Extrema.SelectDisjoint | tide_api/lib.py:108-130 | two tests that never both hold give lists with no shared time and at most one entry per root between them |
| Extrema.SelectComplement | tide_tools/lib.py:119-132 | complementary tests split the roots exactly: lengths sum to the root count and the time multisets add up to the roots |
| ApiLib.ExtremaDegree | tide_api/lib.py:99 | the degree is 4 whenever at least five samples exist, and always below the sample count |
| ApiLib.HiLoTides | tide_api/lib.py:92-132 | fewer than five samples give two empty lists; otherwise high (rising then falling at ±15 min) and low (falling then rising) roots of the quartic's derivative, with the spline's heights |
| ApiLib.HiLoTidesSeparate | tide_api/lib.py:108-130 | no time is both a high and a low tide, all extrema together number at most the roots, and both lists are chronological for ascending roots |
| ApiLib.FetchTides | tide_api/lib.py:135-136 | a station without a "wlp" series raises before any request; otherwise the replies are gathered |
| Fetch.Gathered | tide_api/lib.py:157-159 | the fetch fails with a request error iff some chunk request failed; on success every reply's samples are in the result |
| Fetch.GatheredSnoc | tide_api/lib.py:159 | one more successful reply keeps the outcome and extends the samples by exactly that reply, after the earlier ones |
| Fetch.GatherReplies | tide_tools/lib.py:86-93 | the extend loop returns exactly `Gathered` |
| ApiLib.NearestIndex | tide_api/lib.py:66-67 | the index minimises the distance to the query time, and every earlier index is strictly farther (first wins ties) |
| ApiLib.TideAt | tide_api/lib.py:59-74 | empty series raises; 1–3 samples give the height of the first nearest sample (`NearestIndex`), which is a nearest sample; four or more give the cubic spline's value at the query time |
| ApiLib.TideAtSample | tide_api/lib.py:60-68 | with fewer than four samples at distinct times, querying a sample's own time returns that sample |
| ApiLib.TideAtTime | tide_api/lib.py:55-74 | outside [start date, end date] raises first, then fetch errors, then the query on the samples |
| ApiLib.DetectWindows | tide_api/lib.py:167-202 | one window per low-tide partition, cut at the high tides, each resolved by the window rule |
| ApiLib.DetectWindowsNoHighTide | tide_api/lib.py:94-96 | a short series has no high tide and yields the single window of the whole series |
| ApiLib.Thresholds | tide_api/lib.py:239-240 | missing thresholds mean none |
| ApiLib.ThresholdWindows | tide_api/lib.py:241 | one window list per threshold, in threshold order, each the windows `detect_tide_windows` gives for it |
| ApiLib.EventsOf | tide_api/lib.py:234-277 | fails iff some aligned window list is shorter than the lows; otherwise one event per low tide in order, and event `i` holds window `i` of each threshold's aligned list |
| ApiLib.EventsSkipLeadingHighTide | tide_api/lib.py:246-252 | when the first high precedes the first low, event `i` takes the window of partition `i + 1` |
| ApiLib.StationTides.constructor | tide_api/lib.py:20-35 | a non-empty range gives a valid object with empty caches |
| ApiLib.StationTides.Create | tide_api/lib.py:25-26 | the object is built iff the end date is after the start date; otherwise the range error |
| ApiLib.StationTides.Tides | tide_api/lib.py:41-45 | returns the fetch result; fills the cache on success, leaves it otherwise; serves the cache once filled |
| ApiLib.StationTides.HiLo | tide_api/lib.py:76-86 | returns `HiLoTides` of the fetched series; on success every cache holds its value (samples, highs, lows), on failure no cache changes |
| ApiLib.StationTides.HighTides | tide_api/lib.py:76-80 | the high tides of the fetched series, or the fetch error; on success all three caches hold their values, on failure none changes |
| ApiLib.StationTides.LowTides | tide_api/lib.py:82-86 | the low tides of the fetched series, or the fetch error; on success all three caches hold their values, on failure none changes |
| ApiLib.StationTides.GetTideAtTime | tide_api/lib.py:55-74 | the result equals `TideAtTime` for the object's range and fetch; the sample cache fills only for an in-range time whose fetch succeeds, and the high and low caches never change |
| ApiLib.StationTides.DetectTideWindows | tide_api/lib.py:167-202 | the result equals `DetectWindows` of the fetched series, or the fetch error; on success all three caches hold their values, on failure none changes |
| ApiLib.StationTides.WindowLists | tide_api/lib.py:241 | the map over the thresholds returns exactly `ThresholdWindows` of the fetched series; with at least one threshold all caches hold their values, with none no cache changes |
| ApiLib.StationTides.LowTideEvents | tide_api/lib.py:234-277 | the result equals `EventsOf` of the fetched series, or the fetch error; on success all three caches hold their values, on failure none changes |
| ApiLib.ExpandWindows | tide_api/lib.py:309-317 | one row per event: its dictionary with the windows flattened |
| Windows.QueryDegree | tide_api/lib.py:178 | the degree is 3 for partitions of four or more samples, and below the sample count |
| Windows.Excess | tide_api/lib.py:181 | each value is the sample height less the threshold |
| Windows.ResolveWindow | tide_api/lib.py:186-199 | both ends iff two roots; start only iff one root with the curve positive a minute before it; end only iff one root that does not open; start is the first root and end the last |
| Windows.ResolveWindowShape | tide_tools/lib.py:185-192 | for ascending roots a bounded window starts before it ends; no end at all iff the root count is neither 1 nor 2 |
| Windows.PartitionWindow | tide_api/lib.py:173-175 | a partition of at most three samples gives no window |
| Windows.WindowsFor | tide_api/lib.py:169-202 | one window per partition, in partition order |
| Windows.TideWindows | tide_tools/lib.py:163-166 | the window count equals the number of high-tide partitions |
| Windows.WindowsForPartitions | tide_tools/lib.py:168-196 | the loop emits exactly the partition windows, in order |
| ToolsLib.GetStationOptions | tide_tools/lib.py:36-44 | a failed request raises; otherwise the registry's list unchanged |
| ToolsLib.GetStationByName | tide_tools/lib.py:47-52 | request errors propagate; otherwise the first station whose name matches, None iff none matches |
| ToolsLib.RangeCount | tide_tools/lib.py:66 | every counted chunk index times the step stays below the day count, and the count times the step reaches it (ceiling division) |
| ToolsLib.DateWindows | tide_tools/lib.py:63-82 | a zero step raises, a negative one gives none; otherwise `ceil(num_days / chunk)` windows, window `j` starting `j * chunk` days after start and ending at `min(end, start of chunk + chunk days - 15 min)` |
| ToolsLib.DateWindowsBounds | tide_tools/lib.py:66-68 | the first window starts at `start`, and every window has start <= chunk start <= chunk end <= end |
| ToolsLib.ChunkStartInRange | tide_tools/lib.py:66-67 | every chunk start lies within [start, end] |
| ToolsLib.DateWindowsContiguous | tide_tools/lib.py:67-68 | each window starts a quarter hour after the previous window ends |
| ToolsLib.DateWindowsReachEnd | tide_tools/lib.py:63-68 | for a range of whole days the last window ends at `end`; other ranges are listed under Left out |
| ToolsLib.RequestWindows | tide_tools/lib.py:65-82 | the loop builds exactly `DateWindows` |
| ToolsLib.TidesBetweenDates | tide_tools/lib.py:55-99 | missing "wlp" raises, then `end <= start` raises, then a zero chunk raises, all before any request; otherwise the gathered replies to the date windows |
| ToolsLib.GetTidesBetweenDates | tide_tools/lib.py:55-99 | the method returns exactly `TidesBetweenDates` |
| ToolsLib.GetHiLoTides | tide_tools/lib.py:105-134 | low iff the derivative is negative a minute before the root, high otherwise, with spline heights |
| ToolsLib.GetHiLoTidesChronological | tide_tools/lib.py:119-132 | for strictly ascending roots, the high tides and the low tides each come out in strictly ascending time order |
| ToolsLib.GetHiLoTidesComplete | tide_tools/lib.py:119-132 | every root is in exactly one list: lengths sum to the root count and the time multisets add up to the roots |
| ToolsLib.FindTideWindows | tide_tools/lib.py:160-196 | the windows of the partitions cut at the high tides of `GetHiLoTides` |
| ApiModels.WithinDaySeconds | tide_api/models.py:46 | `timedelta.seconds`: in [0, 86400) and the difference is whole days plus it |
| ApiModels.Hours | tide_api/models.py:41-46 | None iff start or end is missing; otherwise in [0, 24) |
| ApiModels.HoursExact | tide_api/models.py:46 | under a day apart the hours are the elapsed seconds / 3600 |
| ApiModels.HoursWrap | tide_api/models.py:46 | moving the end by whole days leaves the hours unchanged |
| ApiModels.ListingPipeline | tide_api/models.py:115-121 | filter, sort, filter gives a name-sorted list of listed "wlp" stations, a permutation of one combined filter |
| ApiModels.GetStationOptions | tide_api/models.py:111-123 | failed request raises; otherwise sorted by name, every station not discontinued, not operating and with "wlp", a permutation of exactly those input stations |
| ApiModels.FromName | tide_api/models.py:30-34 | the first station in order whose name the pattern matches; None iff none matches |
| ApiStations.GetStationOptions | tide_api/stations.py:9-22 | failed request raises; otherwise sorted by name, every station has "wlp", and a permutation of the input's "wlp" stations |
| ApiStations.StationOptionsExact | tide_api/stations.py:15-20 | each input station with "wlp" appears as often as in the input, every other station never |
| ApiStations.GetStationByName | tide_api/stations.py:30-34 | the first station in order whose name the pattern matches; None iff none matches |
| Registry.NameLeTotal | tide_api/stations.py:16 | Python string order is total |
| Registry.NameLeTransitive | tide_api/stations.py:16 | Python string order is transitive |
| Registry.InsertByName | tide_api/stations.py:16 | inserting into a sorted list keeps it sorted and adds exactly the element |
| Registry.SortByName | tide_api/stations.py:16 | `sorted` by name: the output is sorted and a permutation of the input |
| Registry.NameLeReflexive | tide_api/stations.py:16 | every name is at most itself in Python string order |
| Registry.InsertByNameStable | tide_api/stations.py:16 | inserting puts the station in front of those already present with its name and keeps every name's stations in order |
| Registry.SortByNameStable | tide_api/stations.py:16 | `sorted` is stable: for every name, the stations with that name come out in their input order |
| Registry.Filter | tide_api/stations.py:17-19 | every kept station satisfies the predicate |
| Registry.FilterCons | tide_api/stations.py:17-19 | filtering a list with a first element keeps that element exactly when it satisfies the predicate, in front of the filtered rest |
| Registry.FilterCount | tide_api/stations.py:17-19 | each station is kept as often as it occurs if it satisfies the predicate, else never |
| Registry.FilterPermutation | tide_api/models.py:116-120 | filtering permutations of a list gives permutations of each other |
| Registry.FilterSorted | tide_api/stations.py:16-19 | filtering a sorted list keeps it sorted |
| Registry.FilterFilter | tide_api/models.py:115-120 | two filters in a row equal one filter by the conjunction |
| Registry.FirstMatch | tide_api/stations.py:31-34 | the early-return search: the first matching index, None iff none matches |
| Events.AlignWindows | tide_api/lib.py:246-252 | when both lists are non-empty and the first high precedes the first low, each list loses exactly its first window; otherwise nothing changes |
| Events.WindowsAt | tide_api/lib.py:264-274 | the row's window keys are exactly the thresholds |
| Events.WindowsAtLast | tide_api/lib.py:264-274 | a threshold maps to window `i` of its last occurrence's list (later entries of `dict` win) |
| Events.EventAt | tide_api/lib.py:255-276 | event `i` holds low tide `i`, its local date, that day's sun times and row `i` of the windows |
| Events.Events | tide_api/lib.py:254-277 | an index error iff some window list is shorter than the lows; else one event per low tide, in order |
| Events.BuildEvents | tide_api/lib.py:254-277 | the loop returns exactly `Events` |
| Events.EventFields | tide_api/lib.py:310 | an event's dictionary has a windows cell keyed by the event's thresholds |
| Events.Columns | tide_api/lib.py:313-315 | the added columns are exactly the three per label |
| Events.Expanded | tide_api/lib.py:311-316 | after flattening: no windows entry, three columns per window filled from it, every other entry unchanged, and no other key |
| Events.OverlayFacts | tide_api/lib.py:312-315 | after copying the labels in a set, each has its three columns filled from its window, other entries are untouched and no other key appears |
| Events.OverlayStep | tide_api/lib.py:312-315 | one loop iteration sets exactly that label's three columns |
| Events.ExpandedEvent | tide_api/lib.py:309-317 | an expanded event row holds each window's start, end and hours and the low tide's time and height |
| Events.ExpandFields | tide_api/lib.py:311-316 | the per-row loop returns exactly `Expanded` |
| TideSheet.HoursTimeDifference | tide_tools/get_tide_sheet.py:21-24 | equals the web service's window duration `ApiModels.Hours` with `t1` as start and `t2` as end |
| TideSheet.DefaultThresholds | tide_tools/get_tide_sheet.py:34-35 | missing thresholds are 1.5 m and 2.0 m |
| TideSheet.SheetRow | tide_tools/get_tide_sheet.py:65-83 | a sheet row always has a windows cell |
| TideSheet.SheetRowIsEventFields | tide_tools/get_tide_sheet.py:65-83 | the tool's row equals the web service's event dictionary |
| TideSheet.SheetRowFields | tide_tools/get_tide_sheet.py:65-83 | the row's columns hold the low tide, date, sun times and one window cell per window, with hours from `hours_time_difference(end, start)` |
| TideSheet.SheetRows | tide_tools/get_tide_sheet.py:47-84 | an index error iff a window list is short; else row `i` is built from low tide `i` and entry `i` of each list |
| TideSheet.SheetLists | tide_tools/get_tide_sheet.py:41-45 | one list per threshold; each list loses its first window exactly when the series has both kinds of extrema and begins with a high tide |
| TideSheet.SheetOf | tide_tools/get_tide_sheet.py:39-84 | fails with an index error exactly when some shifted window list is shorter than the low tides of `get_hilo_tides`; otherwise one row per low tide, in order, row `i` holding low tide `i`'s time and height and built from entry `i` of every shifted list |
| TideSheet.SheetOfWindows | tide_tools/get_tide_sheet.py:72-82 | row `i`'s windows cell holds, under every threshold, the start, end and hours of entry `i` of that threshold's shifted list, the last list winning for a repeated threshold |
| TideSheet.SheetRowsLowTides | tide_tools/get_tide_sheet.py:47-84 | every built row holds its low tide's time and height, in low-tide order |
| TideSheet.DataSheet | tide_tools/get_tide_sheet.py:27-86 | a failed registry request raises; an unmatched station name fails; a failed download fails with its error; for the downloaded samples, an index error exactly when a shifted window list is shorter than the low tides, otherwise the samples and one row per low tide, row `i` built from low tide `i`, entry `i` of every shifted list and the station's sun times |
| TideSheet.Row.constructor | tide_tools/get_tide_sheet.py:65 | a row holds the given dictionary |
| TideSheet.BuildRows | tide_tools/get_tide_sheet.py:47-84 | the loop creates distinct fresh rows equal to `SheetRows`, or the same error |
| TideSheet.SheetFor | tide_tools/get_tide_sheet.py:39-84 | the classification, threshold loop and row loop fail iff `SheetOf` does; otherwise distinct fresh rows equal to its rows |
| TideSheet.GetDataSheet | tide_tools/get_tide_sheet.py:27-86 | the method fails iff `DataSheet` does, with the same error; otherwise distinct fresh rows equal to its rows, and its samples |
| TideSheet.ExpandWindows | tide_tools/get_tide_sheet.py:89-96 | every row is flattened in place to `Expanded` of its old dictionary, and the same list comes back |

## Left out

- Spline construction, derivative and root finding (scipy): a `Fitter` oracle given the timestamps, values and degree; its roots are a given list.
- Floating-point timestamps: times are whole seconds, and roots are taken as whole seconds.
- scipy raises when a spline has no more samples than its degree (for example `get_hilo_tides` in tide_tools on four or fewer samples). The oracle is total, so those errors are not modelled.
- HTTP I/O: registry replies are parameters. These are an optional station list, the chunk replies of tide_api (`replies`), and a reply function of the request window in tide_tools (`respond`).
- The chunk boundaries built by `arrow.Arrow.interval` in `_get_tides` are not modelled; the model takes that function's replies in order.
- Rate limiting and `lru_cache` in tide_api/utils.py are not part of this model.
- Time zones and formatting: `arrow`/`dateutil` conversions and `format_time` strings are not modelled. The local calendar day is an oracle `localDate`. The tz rewrite loops at tide_api/lib.py:162-163 and tide_tools/lib.py:96-97 are left out.
- Astronomy: sunrise, noon and sunset come from an oracle giving an optional time per day, None where the library raises.
- `round(..., 2)` on heights and hours.
- Threshold labels (`f"{wk}m"`, `window_start_{k}`) are modelled as the threshold value, and column names as a `Key` datatype. So text collisions between labels, and between generated and existing columns, are not modelled.
- Regular expressions: `re.match` is an abstract predicate on (pattern, name).
- The module-level `STATIONS` fetch and the `StationName` enum are left out. The station list is a parameter.
- Python dict iteration order in `expand_windows` is not modelled: the windows are a map. The column set and values do not depend on the order.
- TideSheet.ExpandWindows: requires distinct rows that each hold a windows dictionary. A list holding the same row twice, or a row without `windows`, raises `KeyError` in the source; that case is not modelled.
- ToolsLib.DateWindowsReachEnd: covers only whole-day ranges. Suppose the range's remainder after whole days is over 23 h 45 min, and the chunk size divides `NumDays`, the whole days plus one. Then the last window ends at `start + NumDays * Day - 15 min`, less than 15 minutes before `end`, so that final stretch is never requested. This is how tide_tools/lib.py:63-68 behaves, and `DateWindows` models it as written.
- ApiLib.HiLoTidesSeparate: the two lists are shown chronological and disjoint when the roots ascend, not literally as subsequences of the root list.
- Routes, plotting, responses, static data and the pydantic classes of tide_tools/models.py are not part of this model.
