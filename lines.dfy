/** The central line and the umbra-line assembly of visualization/Lines.js
    (`computeCentralLine`, `computeUmbraLine`), and the chaining of a point list into
    two-point segments that `computeUmbraLine` and `computeMax` share. */
module Lines {
  import opened Common
  import opened Eclipse

  /** Metres to kilometres (`vecMul(r, 0.001)`). */
  const Kilo: real := 0.001

  /** The scan window shared by all line computations: one temporal resolution
      beyond the limits on each side. */
  function LineTicks(limits: Limits, step: int): seq<Tick>
    requires step > 0
  {
    ScanTicks(limits.jtMin - limits.temporalRes, limits.jtMax + limits.temporalRes, step)
  }

  // ---------------------------------------------------------------- central line

  /** The shadow axis meets the Earth at `t` (zeta is not NaN). */
  function HasAxis(eph: Ephemeris): Tick -> bool
  {
    t => eph.zeta(t).Some?
  }

  /** The central-line point of a tick whose zeta is defined, in km. */
  function CentralPoint(eph: Ephemeris): Tick -> Vec3
  {
    t => if eph.zeta(t).Some? then Scale(eph.axisEfi(t, eph.zeta(t).value), Kilo) else Vec3(0.0, 0.0, 0.0)
  }

  /** The central line over the sample ticks `ks`, as the loop builds it. */
  function CentralLineOf(eph: Ephemeris, ks: seq<Tick>): seq<Vec3>
  {
    if ks == [] then []
    else
      var t := ks[|ks| - 1];
      CentralLineOf(eph, ks[..|ks| - 1]) + (if eph.zeta(t).Some? then [Scale(eph.axisEfi(t, eph.zeta(t).value), Kilo)] else [])
  }

  /** One more sample tick adds its point when zeta is defined there. */
  lemma CentralLineStep(eph: Ephemeris, ts: seq<Tick>, i: nat)
    requires i < |ts|
    ensures CentralLineOf(eph, ts[..i + 1]) == CentralLineOf(eph, ts[..i])
              + (if eph.zeta(ts[i]).Some? then [Scale(eph.axisEfi(ts[i], eph.zeta(ts[i]).value), Kilo)] else [])
  {
    PrefixSnoc(ts, i);
  }

  /** `computeCentralLine`: one point per sample tick whose zeta is defined. */
  method ComputeCentralLine(eph: Ephemeris, limits: Limits, step: int) returns (line: seq<Vec3>)
    requires step > 0
    ensures line == CentralLineOf(eph, LineTicks(limits, step))
  {
    var start, stop := limits.jtMin - limits.temporalRes, limits.jtMax + limits.temporalRes;
    ghost var ts := ScanTicks(start, stop, step);
    assert ts == LineTicks(limits, step);
    ghost var i: nat := 0;
    var t := start;
    line := [];
    while t < stop
      invariant i <= |ts|
      invariant i < |ts| ==> ts[i] == t
      invariant i == |ts| ==> t >= stop
      invariant line == CentralLineOf(eph, ts[..i])
      decreases stop - t
    {
      CentralLineStep(eph, ts, i);
      if eph.zeta(t).Some? {
        line := line + [Scale(eph.axisEfi(t, eph.zeta(t).value), Kilo)];
      }
      ScanTicksStep(start, stop, step, i);
      t := t + step;
      i := i + 1;
    }
    assert ts[..i] == ts;
  }

  /** The loop's central line keeps the sample ticks where zeta is defined and maps
      each to its scaled sub-axis point. */
  lemma {:induction false} CentralLineIsMapFilter(eph: Ephemeris, ks: seq<Tick>)
    ensures CentralLineOf(eph, ks) == Map(CentralPoint(eph), Filter(HasAxis(eph), ks))
    decreases |ks|
  {
    if ks != [] {
      var front := ks[..|ks| - 1];
      var t := ks[|ks| - 1];
      CentralLineIsMapFilter(eph, front);
      assert ks == front + [t];
      FilterSnoc(HasAxis(eph), front, t);
      if eph.zeta(t).Some? {
        MapSnoc(CentralPoint(eph), Filter(HasAxis(eph), front), t);
      }
    }
  }

  /** The central line is made of exactly the sample ticks where zeta is defined,
      in increasing time order. */
  lemma CentralTicksExact(eph: Ephemeris, limits: Limits, step: int)
    requires step > 0
    ensures Increasing(Filter(HasAxis(eph), LineTicks(limits, step)))
    ensures forall t :: t in Filter(HasAxis(eph), LineTicks(limits, step)) <==>
                        t in LineTicks(limits, step) && eph.zeta(t).Some?
  {
    var ts := LineTicks(limits, step);
    ScanTicksIncreasing(limits.jtMin - limits.temporalRes, limits.jtMax + limits.temporalRes, step);
    FilterIncreasing(HasAxis(eph), ts);
    forall t | t in ts && eph.zeta(t).Some? ensures t in Filter(HasAxis(eph), ts) {
      FilterKeeps(HasAxis(eph), ts, t);
    }
  }

  /** Each central-line point is the scaled sub-axis point of the matching kept
      tick, and the line has no more points than the window has samples. */
  lemma CentralLinePoints(eph: Ephemeris, limits: Limits, step: int)
    requires step > 0
    ensures var kept := Filter(HasAxis(eph), LineTicks(limits, step));
            && |CentralLineOf(eph, LineTicks(limits, step))| == |kept| <= |LineTicks(limits, step)|
            && forall k :: 0 <= k < |kept| ==>
                 eph.zeta(kept[k]).Some? &&
                 CentralLineOf(eph, LineTicks(limits, step))[k] == Scale(eph.axisEfi(kept[k], eph.zeta(kept[k]).value), Kilo)
  {
    var ts := LineTicks(limits, step);
    var kept := Filter(HasAxis(eph), ts);
    CentralLineIsMapFilter(eph, ts);
    forall k | 0 <= k < |kept| ensures eph.zeta(kept[k]).Some? {
      assert kept[k] in kept;
    }
  }

  // ---------------------------------------------------------------- chaining

  /** The first `m` consecutive pairs of `s`, flattened: `s[0], s[1], s[1], s[2], …`. */
  function Pairs<T>(s: seq<T>, m: nat): (r: seq<T>)
    requires m == 0 || m < |s|
    ensures |r| == 2 * m
    ensures forall j :: 0 <= j < m ==> r[2 * j] == s[j] && r[2 * j + 1] == s[j + 1]
  {
    if m == 0 then [] else Pairs(s, m - 1) + [s[m - 1], s[m]]
  }

  /** A polyline as a list of two-point segments joining each point to the next. */
  function Chain<T>(s: seq<T>): seq<T>
  {
    Pairs(s, if |s| == 0 then 0 else |s| - 1)
  }

  /** The pair loop `for (i = 0; i < s.length - 1; i++) { push(s[i]); push(s[i + 1]); }`. */
  method ChainPairs<T>(s: seq<T>) returns (out: seq<T>)
    ensures out == Chain(s)
  {
    out := [];
    var i := 0;
    while i < |s| - 1
      invariant 0 <= i && (i == 0 || i < |s|)
      invariant out == Pairs(s, i)
    {
      out := out + [s[i], s[i + 1]];
      i := i + 1;
    }
  }

  /** Chaining `n` points yields `2(n - 1)` entries: segment `j` runs from point `j`
      to point `j + 1`. A single point or none gives no segment. */
  lemma ChainSegments<T>(s: seq<T>)
    ensures |Chain(s)| == if |s| == 0 then 0 else 2 * (|s| - 1)
    ensures forall j :: 0 <= j < |s| - 1 ==> Chain(s)[2 * j] == s[j] && Chain(s)[2 * j + 1] == s[j + 1]
  {
  }

  /** Every entry of a chain is a point of the list. */
  lemma ChainMembers<T>(s: seq<T>, x: T)
    requires x in Chain(s)
    ensures x in s
  {
    var c := Chain(s);
    var k :| 0 <= k < |c| && c[k] == x;
    var j := k / 2;
    assert c[2 * j] == s[j] && c[2 * j + 1] == s[j + 1];
    assert k == 2 * j || k == 2 * j + 1;
  }

  // ---------------------------------------------------------------- umbra line

  /** The advance of the umbra-line scan after a sample where zeta is defined:
      `5 · zeta` time steps plus one second, rounded down to a whole tick. */
  function AdaptiveAdvance(step: int, zeta: real): (d: int)
    requires step > 0 && zeta >= 0.0
    ensures d >= Second
  {
    (step as real * 5.0 * zeta).Floor + Second
  }

  /** The samples of the adaptive umbra-line scan from `t` up to `stop`: ticks
      without zeta are passed by `step`, and each tick with zeta is kept and passed
      by the adaptive advance. */
  function AdaptiveTicks(eph: Ephemeris, t: Tick, stop: Tick, step: int): (ts: seq<Tick>)
    requires WellFormed(eph) && step > 0
    ensures forall k :: 0 <= k < |ts| ==> t <= ts[k] < stop && eph.zeta(ts[k]).Some?
    decreases stop - t
  {
    if t >= stop then []
    else match eph.zeta(t)
      case Some(z) => [t] + AdaptiveTicks(eph, t + AdaptiveAdvance(step, z), stop, step)
      case None => AdaptiveTicks(eph, t + step, stop, step)
  }

  /** The sample times of the umbra line: two probes 2 s and 12 s after the first
      umbral contact, the adaptive scan over the window, and two probes 22 s and 2 s
      before the last umbral contact when it exists. Empty when there is no first
      umbral contact. */
  function UmbraTimes(eph: Ephemeris, limits: Limits, cp: ContactPoints, step: int): seq<Tick>
    requires WellFormed(eph) && step > 0
  {
    match cp.firstUmbra.time
    case None => []
    case Some(first) =>
      [first + 2 * Second, first + 12 * Second]
      + AdaptiveTicks(eph, limits.jtMin - limits.temporalRes, limits.jtMax + limits.temporalRes, step)
      + match cp.lastUmbra.time
        case None => []
        case Some(last) => [last - 22 * Second, last - 2 * Second]
  }

  /** The adaptive loop of `computeUmbraLine`, appending to the two leading probes. */
  method AdaptiveScan(eph: Ephemeris, start: Tick, stop: Tick, step: int, lead: seq<Tick>)
    returns (values: seq<Tick>)
    requires WellFormed(eph) && step > 0
    ensures values == lead + AdaptiveTicks(eph, start, stop, step)
  {
    values := lead;
    var t := start;
    while t < stop
      invariant values + AdaptiveTicks(eph, t, stop, step) == lead + AdaptiveTicks(eph, start, stop, step)
      decreases stop - t
    {
      if eph.zeta(t).Some? {
        var z := eph.zeta(t).value;
        assert AdaptiveTicks(eph, t, stop, step) == [t] + AdaptiveTicks(eph, t + AdaptiveAdvance(step, z), stop, step);
        values := values + [t];
        t := t + AdaptiveAdvance(step, z);
      } else {
        t := t + step;
      }
    }
  }

  /** `computeUmbraLine`'s list of sample times. */
  method ComputeUmbraTimes(eph: Ephemeris, limits: Limits, cp: ContactPoints, step: int)
    returns (values: seq<Tick>)
    requires WellFormed(eph) && step > 0
    ensures values == UmbraTimes(eph, limits, cp, step)
  {
    if cp.firstUmbra.time.None? {
      return [];
    }
    var first := cp.firstUmbra.time.value;
    values := AdaptiveScan(eph, limits.jtMin - limits.temporalRes, limits.jtMax + limits.temporalRes, step,
                           [first + 2 * Second, first + 12 * Second]);
    if cp.lastUmbra.time.Some? {
      var last := cp.lastUmbra.time.value;
      values := values + [last - 22 * Second, last - 2 * Second];
    }
  }

  /** The adaptive samples keep zeta defined, stay in the window and advance by at
      least one second from one sample to the next. */
  lemma {:induction false} AdaptiveTicksSpaced(eph: Ephemeris, t: Tick, stop: Tick, step: int, k: nat)
    requires WellFormed(eph) && step > 0
    requires k + 1 < |AdaptiveTicks(eph, t, stop, step)|
    ensures AdaptiveTicks(eph, t, stop, step)[k] + Second <= AdaptiveTicks(eph, t, stop, step)[k + 1]
    decreases stop - t
  {
    var z := eph.zeta(t);
    if z.Some? {
      var next := t + AdaptiveAdvance(step, z.value);
      var rest := AdaptiveTicks(eph, next, stop, step);
      assert AdaptiveTicks(eph, t, stop, step) == [t] + rest;
      if k > 0 {
        AdaptiveTicksSpaced(eph, next, stop, step, k - 1);
      }
    } else {
      AdaptiveTicksSpaced(eph, t + step, stop, step, k);
    }
  }

  /** The adaptive scan starts at the first fixed-step sample where zeta is defined
      and is empty when there is none. */
  lemma {:induction false} AdaptiveTicksStart(eph: Ephemeris, t: Tick, stop: Tick, step: int)
    requires WellFormed(eph) && step > 0
    ensures var ts := AdaptiveTicks(eph, t, stop, step);
            var hit := FirstHit(HasAxis(eph), ScanTicks(t, stop, step));
            && (ts == [] <==> hit.None?)
            && (ts != [] ==> ts[0] == hit.value)
    decreases stop - t
  {
    if t < stop {
      FirstHitScanStep(HasAxis(eph), t, stop, step);
      if eph.zeta(t).None? {
        AdaptiveTicksStart(eph, t + step, stop, step);
      }
    }
  }

  /** Replaces the unset extreme points of `computeUmbraLine` with a distance that no
      cell beats: -180 for the maximum, 180 for the minimum. */
  function InitialBest(upward: bool): real
  {
    if upward then -180.0 else 180.0
  }

  /** `d` beats the running extreme `b`: strictly greater for the maximum, strictly
      smaller for the minimum. */
  predicate Beats(d: real, b: real, upward: bool)
  {
    if upward then d > b else d < b
  }

  /** The running extreme after a prefix of cells: the best distance so far and the
      point of the cell that set it (`undefined` until a cell beats the initial value). */
  datatype Running = Running(best: real, point: Option<Vec3>)

  /** The extreme search over the non-zero cells of `cells`, taken in order. */
  function RunExtreme(cells: seq<UmbraCell>, upward: bool): Running
  {
    if cells == [] then Running(InitialBest(upward), None)
    else
      var r := RunExtreme(cells[..|cells| - 1], upward);
      var c := cells[|cells| - 1];
      if c.value != 0.0 && Beats(c.dist, r.best, upward) then Running(c.dist, Some(c.point)) else r
  }

  /** The rows of a grid, one after the other (row-major order). */
  function Flatten<T>(rows: seq<seq<T>>): (r: seq<T>)
  {
    if rows == [] then [] else Flatten(rows[..|rows| - 1]) + rows[|rows| - 1]
  }

  lemma RunExtremeSnoc(cells: seq<UmbraCell>, c: UmbraCell, upward: bool)
    ensures RunExtreme(cells + [c], upward) ==
              var r := RunExtreme(cells, upward);
              if c.value != 0.0 && Beats(c.dist, r.best, upward) then Running(c.dist, Some(c.point)) else r
  {
    assert (cells + [c])[..|cells|] == cells;
  }

  /** The running extreme dominates every non-zero cell seen and the initial value;
      without a point it is still the initial value. */
  lemma {:induction false} RunExtremeDominates(cells: seq<UmbraCell>, upward: bool)
    ensures var r := RunExtreme(cells, upward);
            && !Beats(InitialBest(upward), r.best, upward)
            && (r.point.None? ==> r.best == InitialBest(upward))
            && forall j :: 0 <= j < |cells| && cells[j].value != 0.0 ==> !Beats(cells[j].dist, r.best, upward)
    decreases |cells|
  {
    if cells != [] {
      var front := cells[..|cells| - 1];
      RunExtremeDominates(front, upward);
      var r := RunExtreme(cells, upward);
      forall j | 0 <= j < |cells| && cells[j].value != 0.0 ensures !Beats(cells[j].dist, r.best, upward) {
        if j < |front| {
          assert cells[j] == front[j];
        }
      }
    }
  }

  /** The first extreme cell, in row-major order, among the cells that beat the
      initial value: every earlier non-zero cell is strictly beaten by it and no
      later one beats it. */
  ghost predicate IsFirstExtreme(cells: seq<UmbraCell>, i: int, upward: bool)
  {
    && 0 <= i < |cells|
    && cells[i].value != 0.0
    && Beats(cells[i].dist, InitialBest(upward), upward)
    && (forall j :: 0 <= j < i && cells[j].value != 0.0 ==> Beats(cells[i].dist, cells[j].dist, upward))
    && (forall j :: i < j < |cells| && cells[j].value != 0.0 ==> !Beats(cells[j].dist, cells[i].dist, upward))
  }

  /** A last cell that beats the running extreme of the cells before it is the first
      extreme cell. */
  lemma FirstExtremeAtLast(cells: seq<UmbraCell>, upward: bool)
    requires cells != []
    requires var c := cells[|cells| - 1];
             c.value != 0.0 && Beats(c.dist, RunExtreme(cells[..|cells| - 1], upward).best, upward)
    ensures IsFirstExtreme(cells, |cells| - 1, upward)
  {
    var front := cells[..|cells| - 1];
    var last := |cells| - 1;
    RunExtremeDominates(front, upward);
    forall j | 0 <= j < last && cells[j].value != 0.0 ensures Beats(cells[last].dist, cells[j].dist, upward) {
      assert cells[j] == front[j];
    }
  }

  /** The first extreme cell of the cells before a last cell that does not beat it
      stays the first extreme cell. */
  lemma FirstExtremeKept(cells: seq<UmbraCell>, i: int, upward: bool)
    requires cells != []
    requires IsFirstExtreme(cells[..|cells| - 1], i, upward)
    requires var c := cells[|cells| - 1];
             c.value == 0.0 || !Beats(c.dist, cells[i].dist, upward)
    ensures IsFirstExtreme(cells, i, upward)
  {
    var front := cells[..|cells| - 1];
    var last := |cells| - 1;
    assert cells[i] == front[i];
    forall j | 0 <= j < i && cells[j].value != 0.0 ensures Beats(cells[i].dist, cells[j].dist, upward) {
      assert cells[j] == front[j];
    }
    forall j | i < j < |cells| && cells[j].value != 0.0 ensures !Beats(cells[j].dist, cells[i].dist, upward) {
      if j < last {
        assert cells[j] == front[j];
      }
    }
  }

  /** When the extreme search has a point, it is the point of the first extreme cell. */
  lemma {:induction false} RunExtremeFindsFirst(cells: seq<UmbraCell>, upward: bool) returns (i: int)
    requires RunExtreme(cells, upward).point.Some?
    ensures IsFirstExtreme(cells, i, upward)
    ensures RunExtreme(cells, upward).point.value == cells[i].point
    ensures RunExtreme(cells, upward).best == cells[i].dist
    decreases |cells|
  {
    var front := cells[..|cells| - 1];
    var last := |cells| - 1;
    var rf := RunExtreme(front, upward);
    if cells[last].value != 0.0 && Beats(cells[last].dist, rf.best, upward) {
      FirstExtremeAtLast(cells, upward);
      i := last;
    } else {
      i := RunExtremeFindsFirst(front, upward);
      FirstExtremeKept(cells, i, upward);
    }
  }

  /** The extreme search finds a point exactly when some non-zero cell beats the
      initial value, and then it is the point of the first extreme cell (ties keep
      the earliest cell). */
  lemma RunExtremeIsFirstExtreme(cells: seq<UmbraCell>, upward: bool)
    ensures var r := RunExtreme(cells, upward);
            && (r.point.None? <==>
                  forall j :: 0 <= j < |cells| && cells[j].value != 0.0 ==> !Beats(cells[j].dist, InitialBest(upward), upward))
            && (r.point.Some? ==> exists i :: IsFirstExtreme(cells, i, upward) && r.point.value == cells[i].point && r.best == cells[i].dist)
  {
    RunExtremeDominates(cells, upward);
    if RunExtreme(cells, upward).point.Some? {
      var i := RunExtremeFindsFirst(cells, upward);
      assert Beats(cells[i].dist, InitialBest(upward), upward);
    }
  }

  /** Flattening one more row appends that row. */
  lemma FlattenSnoc<T>(rows: seq<seq<T>>, r: nat)
    requires r < |rows|
    ensures Flatten(rows[..r + 1]) == Flatten(rows[..r]) + rows[r]
  {
    assert rows[..r + 1][..r] == rows[..r];
  }

  /** The column loop over one row of the umbra grid, continuing both searches
      from the cells `done` before it. */
  method ScanRow(row: seq<UmbraCell>, ghost done: seq<UmbraCell>,
                 latMax0: real, pointMax0: Option<Vec3>, latMin0: real, pointMin0: Option<Vec3>)
    returns (latMax: real, pointMax: Option<Vec3>, latMin: real, pointMin: Option<Vec3>)
    requires Running(latMax0, pointMax0) == RunExtreme(done, true)
    requires Running(latMin0, pointMin0) == RunExtreme(done, false)
    ensures Running(latMax, pointMax) == RunExtreme(done + row, true)
    ensures Running(latMin, pointMin) == RunExtreme(done + row, false)
  {
    latMax, pointMax, latMin, pointMin := latMax0, pointMax0, latMin0, pointMin0;
    var c := 0;
    assert done + row[..0] == done;
    while c < |row|
      invariant 0 <= c <= |row|
      invariant Running(latMax, pointMax) == RunExtreme(done + row[..c], true)
      invariant Running(latMin, pointMin) == RunExtreme(done + row[..c], false)
    {
      var cell := row[c];
      assert done + row[..c + 1] == (done + row[..c]) + [cell];
      RunExtremeSnoc(done + row[..c], cell, true);
      RunExtremeSnoc(done + row[..c], cell, false);
      if cell.value != 0.0 {
        if cell.dist > latMax {
          latMax := cell.dist;
          pointMax := Some(cell.point);
        }
        if cell.dist < latMin {
          latMin := cell.dist;
          pointMin := Some(cell.point);
        }
      }
      c := c + 1;
    }
    assert row[..|row|] == row;
  }

  /** The nested row/column loop that tracks the farthest cells on either side of
      the path, over one umbra grid. */
  method UmbraExtremes(grid: seq<seq<UmbraCell>>) returns (pointMin: Option<Vec3>, pointMax: Option<Vec3>)
    ensures pointMin == RunExtreme(Flatten(grid), false).point
    ensures pointMax == RunExtreme(Flatten(grid), true).point
  {
    var latMax := InitialBest(true);
    var latMin := InitialBest(false);
    pointMax := None;
    pointMin := None;
    var r := 0;
    while r < |grid|
      invariant 0 <= r <= |grid|
      invariant Running(latMax, pointMax) == RunExtreme(Flatten(grid[..r]), true)
      invariant Running(latMin, pointMin) == RunExtreme(Flatten(grid[..r]), false)
    {
      FlattenSnoc(grid, r);
      latMax, pointMax, latMin, pointMin := ScanRow(grid[r], Flatten(grid[..r]), latMax, pointMax, latMin, pointMin);
      r := r + 1;
    }
    assert grid[..|grid|] == grid;
  }

  /** The extreme point a sample time contributes to one side: the search over its
      umbra grid when zeta is defined at the time and one second later, none
      otherwise. */
  function ExtremeAt(eph: Ephemeris, t: Tick, upward: bool): Option<Vec3>
  {
    if eph.zeta(t).Some? && eph.zetaAhead(t).Some? then RunExtreme(Flatten(eph.umbraGrid(t)), upward).point else None
  }

  /** The extreme points of one side over the sample times `values`, in order
      (`pointsMax` when `upward`, `pointsMin` otherwise). */
  function ExtremePoints(eph: Ephemeris, values: seq<Tick>, upward: bool): seq<Vec3>
  {
    if values == [] then []
    else
      var t := values[|values| - 1];
      ExtremePoints(eph, values[..|values| - 1], upward)
      + match ExtremeAt(eph, t, upward) case Some(p) => [p] case None => []
  }

  /** The loop over the sample times that collects the extreme points. */
  method CollectExtremes(eph: Ephemeris, values: seq<Tick>) returns (pointsMin: seq<Vec3>, pointsMax: seq<Vec3>)
    ensures pointsMin == ExtremePoints(eph, values, false)
    ensures pointsMax == ExtremePoints(eph, values, true)
  {
    pointsMin := [];
    pointsMax := [];
    var k := 0;
    while k < |values|
      invariant 0 <= k <= |values|
      invariant pointsMin == ExtremePoints(eph, values[..k], false)
      invariant pointsMax == ExtremePoints(eph, values[..k], true)
    {
      var t := values[k];
      assert values[..k + 1][..k] == values[..k];
      if eph.zeta(t).Some? && eph.zetaAhead(t).Some? {
        var pointMin, pointMax := UmbraExtremes(eph.umbraGrid(t));
        if pointMin.Some? {
          pointsMin := pointsMin + [pointMin.value];
        }
        if pointMax.Some? {
          pointsMax := pointsMax + [pointMax.value];
        }
      }
      k := k + 1;
    }
    assert values[..|values|] == values;
  }

  /** Every collected extreme point comes from a sample time, and each sample time
      adds at most one point per side. */
  lemma {:induction false} ExtremePointsFromSamples(eph: Ephemeris, values: seq<Tick>, upward: bool)
    ensures |ExtremePoints(eph, values, upward)| <= |values|
    ensures forall p :: p in ExtremePoints(eph, values, upward) ==>
              exists t :: t in values && ExtremeAt(eph, t, upward) == Some(p)
    decreases |values|
  {
    if values != [] {
      var front := values[..|values| - 1];
      var t := values[|values| - 1];
      ExtremePointsFromSamples(eph, front, upward);
      forall p | p in ExtremePoints(eph, values, upward)
        ensures exists u :: u in values && ExtremeAt(eph, u, upward) == Some(p)
      {
        if p in ExtremePoints(eph, front, upward) {
          var u :| u in front && ExtremeAt(eph, u, upward) == Some(p);
          assert u in values;
        } else {
          assert ExtremeAt(eph, t, upward) == Some(p);
        }
      }
    }
  }

  /** The points of a list, as entries of an output array that may hold `undefined`. */
  function Defined<T>(s: seq<T>): (r: seq<Option<T>>)
    ensures |r| == |s|
    ensures forall k :: 0 <= k < |s| ==> r[k] == Some(s[k])
  {
    if s == [] then [] else [Some(s[0])] + Defined(s[1..])
  }

  /** The umbra-line segments: the chain of the minimum points, the chain of the
      maximum points, then the two end caps joining the first points and the last
      points of both sides (`undefined` where a side has no point). */
  function UmbraSegments(pointsMin: seq<Vec3>, pointsMax: seq<Vec3>): seq<Option<Vec3>>
  {
    Defined(Chain(pointsMin) + Chain(pointsMax))
    + [Lookup(pointsMax, 0), Lookup(pointsMin, 0),
       Lookup(pointsMax, |pointsMax| - 1), Lookup(pointsMin, |pointsMin| - 1)]
  }

  /** The umbra line as `computeUmbraLine` returns it. */
  function UmbraLineOf(eph: Ephemeris, limits: Limits, cp: ContactPoints, step: int): seq<Option<Vec3>>
    requires WellFormed(eph) && step > 0
  {
    if cp.firstUmbra.time.None? then []
    else
      var values := UmbraTimes(eph, limits, cp, step);
      UmbraSegments(ExtremePoints(eph, values, false), ExtremePoints(eph, values, true))
  }

  /** `computeUmbraLine`. */
  method ComputeUmbraLine(eph: Ephemeris, limits: Limits, cp: ContactPoints, step: int)
    returns (lines: seq<Option<Vec3>>)
    requires WellFormed(eph) && step > 0
    ensures lines == UmbraLineOf(eph, limits, cp, step)
  {
    if cp.firstUmbra.time.None? {
      return [];
    }
    var values := ComputeUmbraTimes(eph, limits, cp, step);
    var pointsMin, pointsMax := CollectExtremes(eph, values);
    var chainMin := ChainPairs(pointsMin);
    var chainMax := ChainPairs(pointsMax);
    lines := Defined(chainMin + chainMax)
             + [Lookup(pointsMax, 0), Lookup(pointsMin, 0),
                Lookup(pointsMax, |pointsMax| - 1), Lookup(pointsMin, |pointsMin| - 1)];
  }

  /** The umbra segments of two point lists: both chains, fully defined, then four
      closing entries, each defined exactly when its side has a point: the first
      maximum and minimum points, then the last ones. */
  lemma UmbraSegmentsShape(pointsMin: seq<Vec3>, pointsMax: seq<Vec3>)
    ensures var lines := UmbraSegments(pointsMin, pointsMax);
            var n := |Chain(pointsMin)| + |Chain(pointsMax)|;
            && |lines| == n + 4
            && (forall k :: 0 <= k < n ==> lines[k].Some?)
            && (forall k :: 0 <= k < |Chain(pointsMin)| ==> lines[k] == Some(Chain(pointsMin)[k]))
            && (forall k :: 0 <= k < |Chain(pointsMax)| ==> lines[|Chain(pointsMin)| + k] == Some(Chain(pointsMax)[k]))
            && (pointsMax != [] ==> lines[n] == Some(pointsMax[0]) && lines[n + 2] == Some(pointsMax[|pointsMax| - 1]))
            && (pointsMin != [] ==> lines[n + 1] == Some(pointsMin[0]) && lines[n + 3] == Some(pointsMin[|pointsMin| - 1]))
            && (pointsMax == [] ==> lines[n].None? && lines[n + 2].None?)
            && (pointsMin == [] ==> lines[n + 1].None? && lines[n + 3].None?)
  {
    UmbraSegmentsChains(pointsMin, pointsMax);
    UmbraSegmentsCaps(pointsMin, pointsMax);
  }

  /** The umbra-line segments open with both chains, every entry defined. */
  lemma UmbraSegmentsChains(pointsMin: seq<Vec3>, pointsMax: seq<Vec3>)
    ensures |UmbraSegments(pointsMin, pointsMax)| == |Chain(pointsMin)| + |Chain(pointsMax)| + 4
    ensures forall k :: 0 <= k < |Chain(pointsMin)| ==> UmbraSegments(pointsMin, pointsMax)[k] == Some(Chain(pointsMin)[k])
    ensures forall k :: 0 <= k < |Chain(pointsMax)| ==>
              UmbraSegments(pointsMin, pointsMax)[|Chain(pointsMin)| + k] == Some(Chain(pointsMax)[k])
  {
    var cMin := Chain(pointsMin);
    var cMax := Chain(pointsMax);
    var lines := UmbraSegments(pointsMin, pointsMax);
    forall k | 0 <= k < |cMin| ensures lines[k] == Some(cMin[k]) {
      assert lines[k] == Defined(cMin + cMax)[k];
      assert (cMin + cMax)[k] == cMin[k];
    }
    forall k | 0 <= k < |cMax| ensures lines[|cMin| + k] == Some(cMax[k]) {
      assert lines[|cMin| + k] == Defined(cMin + cMax)[|cMin| + k];
      assert (cMin + cMax)[|cMin| + k] == cMax[k];
    }
  }

  /** The four end caps follow the chains: the first point of each side, then the
      last point of each side, maximum side first. */
  lemma UmbraSegmentsCaps(pointsMin: seq<Vec3>, pointsMax: seq<Vec3>)
    ensures var n := |Chain(pointsMin)| + |Chain(pointsMax)|;
            && |UmbraSegments(pointsMin, pointsMax)| == n + 4
            && UmbraSegments(pointsMin, pointsMax)[n..] ==
                 [Lookup(pointsMax, 0), Lookup(pointsMin, 0),
                  Lookup(pointsMax, |pointsMax| - 1), Lookup(pointsMin, |pointsMin| - 1)]
  {
  }

  /** The umbra line is empty exactly when there is no first umbral contact. */
  lemma UmbraLineEmptyIffNoFirstContact(eph: Ephemeris, limits: Limits, cp: ContactPoints, step: int)
    requires WellFormed(eph) && step > 0
    ensures UmbraLineOf(eph, limits, cp, step) == [] <==> cp.firstUmbra.time.None?
  {
    if cp.firstUmbra.time.Some? {
      var values := UmbraTimes(eph, limits, cp, step);
      assert |UmbraSegments(ExtremePoints(eph, values, false), ExtremePoints(eph, values, true))| >= 4;
    }
  }
}
