/** The contour stage of the engine (visualization/Contours.js): the search window of
    the magnitude grid, the requests that turn grids into contours, and the
    flattening of contour segments into point lists for drawing. The grids and the
    marching-squares contouring belong to the ephemeris library and are
    uninterpreted here. */
module Contours {
  import opened Common
  import opened Eclipse
  import Lines

  /** The altitude, in m, at which contour points are placed. */
  const Altitude: real := 10000.0
  /** The margin, in degrees, added on every side of the grid around the limits. */
  const Margin: real := 5.0
  /** The margin added before and after the limits in time (10 minutes). */
  const TimeMargin: Tick := 10 * Minute
  /** The half width of the limits search window around the maximum-eclipse hour. */
  const WindowHalf: Tick := 5 * Hour

  const MagLevels: seq<real> := [0.001, 0.2, 0.4, 0.6, 0.8]
  const UmbraLevels: seq<real> := [0.99]
  const Scales: seq<real> := [100.0]

  /** A request for `orbitsjs.eclipseMagGrid`: time window, time step, the longitude
      and latitude bounds in degrees and the grid spacing. */
  datatype GridRequest = GridRequest(
    jtStart: Tick, jtEnd: Tick, temporalRes: Tick,
    lonMin: real, lonMax: real, latMin: real, latMax: real, spatialRes: real)

  /** The bounds of the region where the grid sees the eclipse. */
  datatype GridBounds = GridBounds(
    latMin: real, latMax: real, lonMin: real, lonMax: real, jtMin: Tick, jtMax: Tick)

  /** A longitude/latitude rectangle in degrees. */
  datatype Region = Region(lonMin: real, lonMax: real, latMin: real, latMax: real)

  /** Which array of a magnitude grid is contoured. */
  datatype Field = Magnitude | InUmbra

  /** A request for `orbitsjs.createContours` over one array of a magnitude grid. */
  datatype ContourRequest = ContourRequest(
    grid: GridRequest, field: Field, levels: seq<real>, scales: seq<real>)

  /** The library calls the contour stage makes. */
  datatype ContourLib = ContourLib(
    /** `eclipseMagGrid`, as far as its bounds are concerned. */
    magGrid: GridRequest -> GridBounds,
    /** `createContours` on one array of a magnitude grid. */
    contours: ContourRequest -> seq<Contour>,
    /** `createContours` with level 0.0 on `eclipseMagDerGrid` at a time, over a region, with a
        grid spacing. */
    derLines: (Tick, Region, real) -> seq<Segment>,
    /** `coordWgs84Efi(lat, lon, h)`: a geodetic position in m, Earth-fixed. */
    toEfi: (Geo, real) -> Vec3)

  /** The start of the calendar hour that contains `t` (`timeGregorian`, then
      `timeJulianYmdhms` with minutes and seconds zero). */
  function HourStart(t: Tick): (h: Tick)
    ensures h % Hour == 0
    ensures h <= t < h + Hour
  {
    t - t % Hour
  }

  /** The grid request of `computeLimits`: the whole globe, from five hours before to
      five hours after the maximum's calendar hour, both ends one second past the hour. */
  function LimitsRequest(jtMax: Tick, spatialRes: real, temporalRes: Tick): (g: GridRequest)
    ensures g.jtEnd - g.jtStart == 2 * WindowHalf
    ensures g.jtStart % Hour == Second
    ensures g.jtStart + WindowHalf - Second <= jtMax < g.jtStart + WindowHalf - Second + Hour
    ensures g.lonMin == 0.0 && g.lonMax == 360.0 && g.latMin == -90.0 && g.latMax == 90.0
    ensures g.temporalRes == temporalRes && g.spatialRes == spatialRes
  {
    var h := HourStart(jtMax);
    GridRequest(h - WindowHalf + Second, h + WindowHalf + Second, temporalRes,
                0.0, 360.0, -90.0, 90.0, spatialRes)
  }

  /** `computeLimits`: the bounds the grid reports, with the caller's resolutions. */
  function ComputeLimits(lib: ContourLib, jtMax: Tick, spatialRes: real, temporalRes: Tick): (l: Limits)
    ensures var b := lib.magGrid(LimitsRequest(jtMax, spatialRes, temporalRes));
      l.latMin == b.latMin && l.latMax == b.latMax && l.lonMin == b.lonMin && l.lonMax == b.lonMax
      && l.jtMin == b.jtMin && l.jtMax == b.jtMax
    ensures l.spatialRes == spatialRes && l.temporalRes == temporalRes
  {
    var b := lib.magGrid(LimitsRequest(jtMax, spatialRes, temporalRes));
    Limits(b.latMin, b.latMax, b.lonMin, b.lonMax, b.jtMin, b.jtMax, spatialRes, temporalRes)
  }

  /** The region of `createContours`: the limits widened by the margin on every side. */
  function Widened(limits: Limits): (r: Region)
    ensures r.lonMin + Margin == limits.lonMin && r.lonMax - Margin == limits.lonMax
    ensures r.latMin + Margin == limits.latMin && r.latMax - Margin == limits.latMax
  {
    Region(limits.lonMin - Margin, limits.lonMax + Margin, limits.latMin - Margin, limits.latMax + Margin)
  }

  /** The magnitude grid of `createContours`: the widened region, over the limits'
      time span extended by the time margin at both ends. */
  function ContourGrid(limits: Limits, spatialRes: real, temporalRes: Tick): (g: GridRequest)
    ensures g.jtStart + TimeMargin == limits.jtMin && g.jtEnd - TimeMargin == limits.jtMax
    ensures Region(g.lonMin, g.lonMax, g.latMin, g.latMax) == Widened(limits)
    ensures g.temporalRes == temporalRes && g.spatialRes == spatialRes
  {
    var r := Widened(limits);
    GridRequest(limits.jtMin - TimeMargin, limits.jtMax + TimeMargin, temporalRes,
                r.lonMin, r.lonMax, r.latMin, r.latMax, spatialRes)
  }

  /** The first derivative time: the calendar hour after the one holding `jtMin`. */
  function DerStart(limits: Limits): Tick
  {
    HourStart(limits.jtMin) + Hour
  }

  /** The last derivative time: the calendar hour before the one holding `jtMax`. */
  function DerStop(limits: Limits): Tick
  {
    HourStart(limits.jtMax) - Hour
  }

  /** The times of the derivative loop `for (derJT = derJTmin; derJT <= derJTmax;
      derJT += 1/48)`: every half hour, both ends included. */
  function DerTicks(limits: Limits): seq<Tick>
  {
    ScanTicks(DerStart(limits), DerStop(limits) + 1, HalfHour)
  }

  /** The derivative times are exactly the half hours from the hour after `jtMin`'s
      to the hour before `jtMax`'s, in increasing order. */
  lemma DerTicksExact(limits: Limits, t: Tick)
    ensures Increasing(DerTicks(limits))
    ensures t in DerTicks(limits) <==>
              DerStart(limits) <= t <= DerStop(limits) && t % HalfHour == 0
  {
    var start, stop := DerStart(limits), DerStop(limits);
    ScanTicksIncreasing(start, stop + 1, HalfHour);
    HourIsHalfHour(HourStart(limits.jtMin));
    if t in DerTicks(limits) {
      DerTickSound(start, stop, t);
    }
    if start <= t <= stop && t % HalfHour == 0 {
      DerTickComplete(start, stop, t);
    }
  }

  lemma DerTickSound(start: Tick, stop: Tick, t: Tick)
    requires start % 18000 == 0
    requires t in ScanTicks(start, stop + 1, HalfHour)
    ensures start <= t <= stop && t % HalfHour == 0
  {
    var ts := ScanTicks(start, stop + 1, HalfHour);
    var i :| 0 <= i < |ts| && ts[i] == t;
    ScanTicksAt(start, stop + 1, HalfHour, i);
    HalfHourShift(start, i);
  }

  lemma DerTickComplete(start: Tick, stop: Tick, t: Tick)
    requires start % 18000 == 0 && t % 18000 == 0
    requires start <= t <= stop
    ensures t in ScanTicks(start, stop + 1, HalfHour)
  {
    var n := HalfHoursBetween(start, t);
    ScanTicksReaches(start, t, n, HalfHour);
    ScanTicksPrefix(start, t + 1, stop + 1, HalfHour, t);
  }

  /** The hour after a whole hour is a half hour. */
  lemma HourIsHalfHour(h: int)
    requires h % 36000 == 0
    ensures (h + 36000) % 18000 == 0
  {
    var q := h / 36000;
    assert h + 36000 == (2 * q + 2) * 18000;
  }

  /** Moving a half hour by whole half hours keeps it a half hour. */
  lemma HalfHourShift(a: int, i: int)
    requires a % 18000 == 0
    ensures (a + i * 18000) % 18000 == 0
  {
    var q := a / 18000;
    assert a + i * 18000 == (q + i) * 18000;
  }

  /** The number of half hours from one half hour to a later one. */
  lemma HalfHoursBetween(a: int, b: int) returns (n: nat)
    requires a % 18000 == 0 && b % 18000 == 0 && a <= b
    ensures a + n * 18000 == b
  {
    var p, q := a / 18000, b / 18000;
    assert a == p * 18000 && b == q * 18000;
    n := q - p;
  }

  /** A forward scan that stops earlier holds no sample the longer scan lacks. */
  lemma {:induction false} ScanTicksPrefix(start: Tick, stop1: Tick, stop2: Tick, step: int, t: Tick)
    requires step > 0 && stop1 <= stop2
    requires t in ScanTicks(start, stop1, step)
    ensures t in ScanTicks(start, stop2, step)
    decreases stop1 - start
  {
    if t != start {
      assert ScanTicks(start, stop1, step) == [start] + ScanTicks(start + step, stop1, step);
      ScanTicksPrefix(start + step, stop1, stop2, step, t);
    }
  }

  /** `vecMul(coordWgs84Efi(lat, lon, 10000), 0.001)`: a contour point in km. */
  function PointKm(lib: ContourLib, g: Geo): Vec3
  {
    Scale(lib.toEfi(g, Altitude), Lines.Kilo)
  }

  /** The point list of a contour: the start and then the end of every segment, in order. */
  function SegmentPoints(lib: ContourLib, lines: seq<Segment>): (r: seq<Vec3>)
    ensures |r| == 2 * |lines|
    ensures forall k :: 0 <= k < |lines| ==>
              r[2 * k] == PointKm(lib, lines[k].start) && r[2 * k + 1] == PointKm(lib, lines[k].end)
  {
    if lines == [] then []
    else
      var l := lines[|lines| - 1];
      SegmentPoints(lib, lines[..|lines| - 1]) + [PointKm(lib, l.start), PointKm(lib, l.end)]
  }

  /** The inner loop of `contourToPoints` and of the derivative loop. */
  method LinePoints(lib: ContourLib, lines: seq<Segment>) returns (points: seq<Vec3>)
    ensures points == SegmentPoints(lib, lines)
  {
    points := [];
    var indLine := 0;
    while indLine < |lines|
      invariant 0 <= indLine <= |lines|
      invariant points == SegmentPoints(lib, lines[..indLine])
    {
      var line := lines[indLine];
      points := points + [PointKm(lib, line.start)];
      points := points + [PointKm(lib, line.end)];
      assert lines[..indLine + 1][..indLine] == lines[..indLine];
      indLine := indLine + 1;
    }
    assert lines[..indLine] == lines;
  }

  /** `contourToPoints`: one point list per contour, in key order. */
  method ContourToPoints(lib: ContourLib, contours: seq<Contour>) returns (contourPoints: seq<seq<Vec3>>)
    ensures |contourPoints| == |contours|
    ensures forall i :: 0 <= i < |contours| ==>
              contourPoints[i] == SegmentPoints(lib, contours[i].lines)
  {
    contourPoints := [];
    var indValues := 0;
    while indValues < |contours|
      invariant 0 <= indValues <= |contours|
      invariant |contourPoints| == indValues
      invariant forall i :: 0 <= i < indValues ==>
                  contourPoints[i] == SegmentPoints(lib, contours[i].lines)
    {
      var points := LinePoints(lib, contours[indValues].lines);
      contourPoints := contourPoints + [points];
      indValues := indValues + 1;
    }
  }

  /** The point lists of the derivative contours at the times `ts`. */
  function DerPoints(lib: ContourLib, region: Region, spatialRes: real, ts: seq<Tick>): (r: seq<seq<Vec3>>)
    ensures |r| == |ts|
  {
    if ts == [] then []
    else
      DerPoints(lib, region, spatialRes, ts[..|ts| - 1])
        + [SegmentPoints(lib, lib.derLines(ts[|ts| - 1], region, spatialRes))]
  }

  /** The `i`-th point list is the point list of the level-0 contour at the `i`-th
      sample time. */
  lemma {:induction false} DerPointsAt(lib: ContourLib, region: Region, spatialRes: real, ts: seq<Tick>, i: nat)
    requires i < |ts|
    ensures DerPoints(lib, region, spatialRes, ts)[i] == SegmentPoints(lib, lib.derLines(ts[i], region, spatialRes))
    decreases |ts|
  {
    if i < |ts| - 1 {
      DerPointsAt(lib, region, spatialRes, ts[..|ts| - 1], i);
    }
  }

  /** One more sample time appends the point list of its contour. */
  lemma DerPointsSnoc(lib: ContourLib, region: Region, spatialRes: real, ts: seq<Tick>, i: nat)
    requires i < |ts|
    ensures DerPoints(lib, region, spatialRes, ts[..i + 1]) ==
      DerPoints(lib, region, spatialRes, ts[..i]) + [SegmentPoints(lib, lib.derLines(ts[i], region, spatialRes))]
  {
    PrefixSnoc(ts, i);
  }

  /** What `createContours` returns. */
  datatype ContourSet = ContourSet(
    contoursMag: seq<Contour>, contoursUmbra: seq<Contour>, derContours: seq<seq<Vec3>>)

  /** The result of `createContours` for the given limits and resolutions. */
  function ContoursOf(lib: ContourLib, limits: Limits, spatialRes: real, temporalRes: Tick): ContourSet
  {
    var grid := ContourGrid(limits, spatialRes, temporalRes);
    ContourSet(
      lib.contours(ContourRequest(grid, Magnitude, MagLevels, Scales)),
      lib.contours(ContourRequest(grid, InUmbra, UmbraLevels, Scales)),
      DerPoints(lib, Widened(limits), spatialRes, DerTicks(limits)))
  }

  /** `createContours`: the magnitude and umbra contours of the widened grid, and the
      point lists of the derivative contours every half hour. */
  method CreateContours(lib: ContourLib, limits: Limits, spatialRes: real, temporalRes: Tick)
    returns (result: ContourSet)
    ensures result == ContoursOf(lib, limits, spatialRes, temporalRes)
  {
    var grid := ContourGrid(limits, spatialRes, temporalRes);
    var contoursMag := lib.contours(ContourRequest(grid, Magnitude, MagLevels, Scales));
    var contoursUmbra := lib.contours(ContourRequest(grid, InUmbra, UmbraLevels, Scales));
    var region := Widened(limits);
    var derContours := DerContours(lib, region, spatialRes, DerStart(limits), DerStop(limits));
    result := ContourSet(contoursMag, contoursUmbra, derContours);
  }

  /** The derivative loop of `createContours`, from `derJTmin` to `derJTmax` inclusive. */
  method DerContours(lib: ContourLib, region: Region, spatialRes: real, derJTmin: Tick, derJTmax: Tick)
    returns (derContours: seq<seq<Vec3>>)
    ensures derContours == DerPoints(lib, region, spatialRes, ScanTicks(derJTmin, derJTmax + 1, HalfHour))
  {
    var stop := derJTmax + 1;
    ghost var ts := ScanTicks(derJTmin, stop, HalfHour);
    ghost var i := 0;
    derContours := [];
    var derJT := derJTmin;
    while derJT < stop
      invariant 0 <= i <= |ts|
      invariant i < |ts| ==> ts[i] == derJT
      invariant i == |ts| ==> derJT >= stop
      invariant derContours == DerPoints(lib, region, spatialRes, ts[..i])
      decreases stop - derJT
    {
      var points := LinePoints(lib, lib.derLines(derJT, region, spatialRes));
      DerPointsSnoc(lib, region, spatialRes, ts, i);
      derContours := derContours + [points];
      ScanTicksStep(derJTmin, stop, HalfHour, i);
      derJT := derJT + HalfHour;
      i := i + 1;
    }
    assert ts[..i] == ts;
  }

  /** The derivative contours of `createContours`: one point list per half hour from the
      hour after `jtMin`'s to the hour before `jtMax`'s, each with the start and end of
      every segment of the level-0 contour at that time. */
  lemma DerContoursShape(lib: ContourLib, limits: Limits, spatialRes: real, temporalRes: Tick, i: nat)
    requires i < |ContoursOf(lib, limits, spatialRes, temporalRes).derContours|
    ensures |ContoursOf(lib, limits, spatialRes, temporalRes).derContours| == |DerTicks(limits)|
    ensures var t := DerTicks(limits)[i];
      var lines := lib.derLines(t, Widened(limits), spatialRes);
      DerStart(limits) <= t <= DerStop(limits) && t % HalfHour == 0
      && |ContoursOf(lib, limits, spatialRes, temporalRes).derContours[i]| == 2 * |lines|
  {
    DerTicksExact(limits, DerTicks(limits)[i]);
    DerPointsAt(lib, Widened(limits), spatialRes, DerTicks(limits), i);
  }
}
