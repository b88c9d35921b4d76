/** Per-partition threshold windows (`detect_tide_windows` in tide_api/lib.py
    and `find_tide_windows` in tide_tools/lib.py resolve them by one rule). */
module Windows {
  import opened Common
  import Partition

  /** The spline degree for threshold and point queries: `min(3, n - 1)`. */
  function QueryDegree(n: nat): (k: int)
    ensures n >= 4 ==> k == 3
    ensures n >= 2 ==> 1 <= k < n
  {
    Min(3, n - 1)
  }

  /** The partition's heights less the threshold: `[h - max_tide_height for h in heights]`. */
  function Excess(part: seq<Measurement>, threshold: real): (r: seq<real>)
    ensures |r| == |part|
    ensures forall i :: 0 <= i < |part| ==> r[i] == part[i].height - threshold
  {
    seq(|part|, i requires 0 <= i < |part| => part[i].height - threshold)
  }

  /** A root opens the window when the shifted curve is above zero a minute
      before it. */
  predicate OpensWindow(g: Curve, root: Time) {
    g.at(root - Minute) > 0.0
  }

  /** The window from the roots of `g = fit - threshold`: two roots bound it,
      one root opens or closes it, and any other count leaves it unresolved. */
  function ResolveWindow(g: Curve): (w: Window)
    ensures (w.start.Some? && w.end.Some?) <==> |g.roots| == 2
    ensures (w.start.Some? && w.end.None?) <==> |g.roots| == 1 && OpensWindow(g, g.roots[0])
    ensures (w.start.None? && w.end.Some?) <==> |g.roots| == 1 && !OpensWindow(g, g.roots[0])
    ensures w.start.Some? ==> w.start.value == g.roots[0]
    ensures w.end.Some? ==> w.end.value == g.roots[|g.roots| - 1]
  {
    if |g.roots| == 2 then Window(Some(g.roots[0]), Some(g.roots[1]))
    else if |g.roots| == 1 && OpensWindow(g, g.roots[0]) then Window(Some(g.roots[0]), None)
    else if |g.roots| == 1 then Window(None, Some(g.roots[0]))
    else Window(None, None)
  }

  /** With ascending roots a bounded window starts before it ends, and a
      window with both ends unset comes exactly from zero or more than two
      roots. */
  lemma ResolveWindowShape(g: Curve)
    requires StrictlyAscending(g.roots)
    ensures var w := ResolveWindow(g);
      && (w.start.Some? && w.end.Some? ==> w.start.value < w.end.value)
      && (w == Window(None, None) <==> |g.roots| != 1 && |g.roots| != 2)
  {
  }

  /** The window of one partition: at most three samples give no window;
      otherwise the spline of height minus threshold is resolved. */
  function PartitionWindow(part: seq<Measurement>, threshold: real, fit: Fitter): (w: Window)
    ensures |part| <= 3 ==> w == Window(None, None)
  {
    if |part| <= 3 then Window(None, None)
    else ResolveWindow(fit(Times(part), Excess(part, threshold), QueryDegree(|part|)).curve)
  }

  /** One window per partition, in partition order. */
  function WindowsFor(parts: seq<seq<Measurement>>, threshold: real, fit: Fitter): (ws: seq<Window>)
    ensures |ws| == |parts|
    ensures forall i :: 0 <= i < |parts| ==> ws[i] == PartitionWindow(parts[i], threshold, fit)
  {
    seq(|parts|, i requires 0 <= i < |parts| => PartitionWindow(parts[i], threshold, fit))
  }

  /** The windows of a series whose partitions are cut at the given high tides. */
  function TideWindows(tides: seq<Measurement>, highs: seq<Measurement>, threshold: real, fit: Fitter)
    : (ws: seq<Window>)
    ensures |ws| == |Partition.Split(tides, Times(highs))|
  {
    WindowsFor(Partition.Split(tides, Times(highs)), threshold, fit)
  }

  /** The loop both copies run: one window appended per partition. */
  method WindowsForPartitions(parts: seq<seq<Measurement>>, threshold: real, fit: Fitter)
    returns (windows: seq<Window>)
    ensures |windows| == |parts|
    ensures forall i :: 0 <= i < |parts| ==> windows[i] == PartitionWindow(parts[i], threshold, fit)
  {
    windows := [];
    var i := 0;
    while i < |parts|
      invariant 0 <= i <= |parts|
      invariant |windows| == i
      invariant forall j :: 0 <= j < i ==> windows[j] == PartitionWindow(parts[j], threshold, fit)
    {
      var part := parts[i];
      var w;
      if |part| <= 3 {
        w := Window(None, None);
      } else {
        var g := fit(Times(part), Excess(part, threshold), QueryDegree(|part|)).curve;
        var rts := g.roots;
        if |rts| == 2 {
          w := Window(Some(rts[0]), Some(rts[1]));
        } else if |rts| == 1 && g.at(rts[0] - Minute) > 0.0 {
          w := Window(Some(rts[0]), None);
        } else if |rts| == 1 {
          w := Window(None, Some(rts[0]));
        } else {
          w := Window(None, None);
        }
      }
      windows := windows + [w];
      i := i + 1;
    }
  }
}
