/** The rise/set curves of visualization/Lines.js (`computeRiseSet`): at every
    sample tick with boundary points, the first two points are sorted into the
    "start" list when the Sun is up there one hour later and into the "end" list
    otherwise; each list is then joined into segments between points two places
    apart, followed by four closing entries. */
module RiseSet {
  import opened Common
  import opened Eclipse
  import opened Lines

  /** The boundary point `j` of tick `t`, in m, and its side: the Sun is up there
      one hour after `t`. */
  function BoundaryPoint(eph: Ephemeris, t: Tick, j: int): Vec3
    requires 0 <= j < |eph.riseSet(t)|
  {
    eph.boundaryEfi(t, eph.riseSet(t)[j])
  }

  predicate SunUpLater(eph: Ephemeris, t: Tick, j: int)
    requires 0 <= j < |eph.riseSet(t)|
  {
    eph.sunUp(t + Hour, BoundaryPoint(eph, t, j)) > 0.0
  }

  /** The points tick `t` adds to the start list (`toStart`) or to the end list: the
      first boundary point, then the second, each on its side, in km. Nothing when
      the tick has fewer than two points. */
  function TickSide(eph: Ephemeris, t: Tick, toStart: bool): (r: seq<Vec3>)
    ensures |r| <= 2
  {
    if |eph.riseSet(t)| < 2 then []
    else
      (if SunUpLater(eph, t, 0) == toStart then [Scale(BoundaryPoint(eph, t, 0), Kilo)] else [])
      + (if SunUpLater(eph, t, 1) == toStart then [Scale(BoundaryPoint(eph, t, 1), Kilo)] else [])
  }

  /** The start or end list over the sample ticks `ks`. */
  function SideList(eph: Ephemeris, ks: seq<Tick>, toStart: bool): seq<Vec3>
  {
    if ks == [] then [] else SideList(eph, ks[..|ks| - 1], toStart) + TickSide(eph, ks[|ks| - 1], toStart)
  }

  lemma SideListSnoc(eph: Ephemeris, ks: seq<Tick>, t: Tick)
    ensures SideList(eph, ks + [t], true) == SideList(eph, ks, true) + TickSide(eph, t, true)
    ensures SideList(eph, ks + [t], false) == SideList(eph, ks, false) + TickSide(eph, t, false)
  {
    assert (ks + [t])[..|ks|] == ks;
  }

  /** A tick whose boundary has a single point: reading the second point fails. */
  function SinglePoint(eph: Ephemeris): Tick -> bool
  {
    t => |eph.riseSet(t)| == 1
  }

  /** Block `i` of the pairing loop: the segment from point `2i` to point `2i + 2`,
      then, when point `2i + 3` exists, the one from `2i + 1` to `2i + 3`. */
  function Block<T>(s: seq<T>, i: nat): seq<T>
    requires 2 * i + 2 < |s|
  {
    [s[2 * i], s[2 * i + 2]] + (if 2 * i + 3 < |s| then [s[2 * i + 1], s[2 * i + 3]] else [])
  }

  /** The number of segments the first `m` blocks hold. */
  function Segments(n: int, m: nat): int
  {
    if m == 0 then 0 else if 2 * m <= n - 2 then 2 * m else n - 2
  }

  /** The first `m` blocks of the pairing loop: segment `k` joins point `k` to point
      `k + 2`, for every `k` below the segment count. */
  function PairUp<T>(s: seq<T>, m: nat): (r: seq<T>)
    requires m == 0 || 2 * (m - 1) + 2 < |s|
    ensures |r| == 2 * Segments(|s|, m)
  {
    if m == 0 then [] else PairUp(s, m - 1) + Block(s, m - 1)
  }

  /** Segment `k` of the first `m` blocks joins point `k` to point `k + 2`. */
  lemma {:induction false} PairUpAt<T>(s: seq<T>, m: nat, k: nat)
    requires m == 0 || 2 * (m - 1) + 2 < |s|
    requires k < Segments(|s|, m)
    ensures PairUp(s, m)[2 * k] == s[k] && PairUp(s, m)[2 * k + 1] == s[k + 2]
    decreases m
  {
    var prev := PairUp(s, m - 1);
    assert PairUp(s, m) == prev + Block(s, m - 1);
    if k < Segments(|s|, m - 1) {
      PairUpAt(s, m - 1, k);
    } else {
      assert Segments(|s|, m - 1) == 2 * (m - 1);
      assert |prev| == 4 * (m - 1);
      if k == 2 * (m - 1) {
        assert PairUp(s, m)[2 * k] == Block(s, m - 1)[0];
        assert PairUp(s, m)[2 * k + 1] == Block(s, m - 1)[1];
      } else {
        assert k == 2 * (m - 1) + 1;
        assert PairUp(s, m)[2 * k] == Block(s, m - 1)[2];
        assert PairUp(s, m)[2 * k + 1] == Block(s, m - 1)[3];
      }
    }
  }

  /** The number of blocks the loop `for (i = 0; i < s.length / 2 - 1; i++)` runs. */
  function BlockCount(n: nat): (m: nat)
    ensures m == 0 || 2 * (m - 1) + 2 < n
    ensures 2 * m + 2 >= n
  {
    if n <= 2 then 0 else (n - 1) / 2
  }

  /** One list joined into segments and closed by its first two and last two entries
      (`undefined` where the list is too short). */
  function Joined(s: seq<Vec3>): seq<Option<Vec3>>
  {
    Defined(PairUp(s, BlockCount(|s|)))
    + [Lookup(s, 0), Lookup(s, 1), Lookup(s, |s| - 2), Lookup(s, |s| - 1)]
  }

  /** The pairing loop and the four closing pushes over one list. */
  method JoinSide(s: seq<Vec3>) returns (out: seq<Option<Vec3>>)
    ensures out == Joined(s)
  {
    var pairs: seq<Vec3> := [];
    var i := 0;
    while 2 * i + 2 < |s|
      invariant i == 0 || 2 * (i - 1) + 2 < |s|
      invariant pairs == PairUp(s, i)
      decreases |s| - 2 * i
    {
      ghost var before := pairs;
      pairs := pairs + [s[2 * i], s[2 * i + 2]];
      if 2 * i + 3 < |s| {
        pairs := pairs + [s[2 * i + 1], s[2 * i + 3]];
      }
      assert pairs == before + Block(s, i);
      i := i + 1;
    }
    assert i == BlockCount(|s|);
    out := Defined(pairs) + [Lookup(s, 0), Lookup(s, 1), Lookup(s, |s| - 2), Lookup(s, |s| - 1)];
  }

  /** The start and end lists over the sample window, or the first sample tick with
      a single boundary point. */
  function SidesOf(eph: Ephemeris, limits: Limits, step: int): Result<(seq<Vec3>, seq<Vec3>), Tick>
    requires step > 0
  {
    SidesOver(eph, LineTicks(limits, step))
  }

  function SidesOver(eph: Ephemeris, ts: seq<Tick>): Result<(seq<Vec3>, seq<Vec3>), Tick>
  {
    match FirstHit(SinglePoint(eph), ts)
    case Some(t) => Failure(t)
    case None => Success((SideList(eph, ts, true), SideList(eph, ts, false)))
  }

  /** The rise/set curves as `computeRiseSet` returns them: the joined start list,
      then the joined end list. The computation fails at the first sample tick with a
      single boundary point. */
  function RiseSetOf(eph: Ephemeris, limits: Limits, step: int): Result<seq<Option<Vec3>>, Tick>
    requires step > 0
  {
    match SidesOf(eph, limits, step)
    case Failure(t) => Failure(t)
    case Success(sides) => Success(Joined(sides.0) + Joined(sides.1))
  }

  /** The body of the tick loop for a tick with other than one boundary point. */
  method ClassifyTick(eph: Ephemeris, t: Tick, start0: seq<Vec3>, end0: seq<Vec3>)
    returns (pointsStart: seq<Vec3>, pointsEnd: seq<Vec3>)
    requires |eph.riseSet(t)| != 1
    ensures pointsStart == start0 + TickSide(eph, t, true)
    ensures pointsEnd == end0 + TickSide(eph, t, false)
  {
    pointsStart, pointsEnd := start0, end0;
    var points := eph.riseSet(t);
    if |points| > 0 {
      var rEfi := eph.boundaryEfi(t, points[0]);
      var rEfi2 := eph.boundaryEfi(t, points[1]);
      if eph.sunUp(t + Hour, rEfi) > 0.0 {
        pointsStart := pointsStart + [Scale(rEfi, Kilo)];
      } else {
        pointsEnd := pointsEnd + [Scale(rEfi, Kilo)];
      }
      if eph.sunUp(t + Hour, rEfi2) > 0.0 {
        pointsStart := pointsStart + [Scale(rEfi2, Kilo)];
      } else {
        pointsEnd := pointsEnd + [Scale(rEfi2, Kilo)];
      }
    }
  }

  /** The tick loop of `computeRiseSet`. */
  method SplitSides(eph: Ephemeris, limits: Limits, step: int) returns (r: Result<(seq<Vec3>, seq<Vec3>), Tick>)
    requires step > 0
    ensures r == SidesOf(eph, limits, step)
  {
    var start, stop := limits.jtMin - limits.temporalRes, limits.jtMax + limits.temporalRes;
    ghost var ts := ScanTicks(start, stop, step);
    assert ts == LineTicks(limits, step);
    ghost var i: nat := 0;
    var pointsStart: seq<Vec3> := [];
    var pointsEnd: seq<Vec3> := [];
    var t := start;
    while t < stop
      invariant i <= |ts|
      invariant i < |ts| ==> ts[i] == t
      invariant i == |ts| ==> t >= stop
      invariant FirstHit(SinglePoint(eph), ts) == FirstHit(SinglePoint(eph), ts[i..])
      invariant pointsStart == SideList(eph, ts[..i], true)
      invariant pointsEnd == SideList(eph, ts[..i], false)
      decreases stop - t
    {
      FirstHitFrom(SinglePoint(eph), ts, i);
      if |eph.riseSet(t)| == 1 {
        return Failure(t);
      }
      PrefixSnoc(ts, i);
      SideListSnoc(eph, ts[..i], t);
      pointsStart, pointsEnd := ClassifyTick(eph, t, pointsStart, pointsEnd);
      ScanTicksStep(start, stop, step, i);
      t := t + step;
      i := i + 1;
    }
    assert ts[..i] == ts;
    r := Success((pointsStart, pointsEnd));
  }

  /** `computeRiseSet`. */
  method ComputeRiseSet(eph: Ephemeris, limits: Limits, step: int) returns (r: Result<seq<Option<Vec3>>, Tick>)
    requires step > 0
    ensures r == RiseSetOf(eph, limits, step)
  {
    var sides := SplitSides(eph, limits, step);
    if sides.Failure? {
      return Failure(sides.error);
    }
    var startOut := JoinSide(sides.value.0);
    var endOut := JoinSide(sides.value.1);
    r := Success(startOut + endOut);
  }

  /** The pairing of `n` points holds `2(n - 2)` entries (none for fewer than three
      points), and segment `k` joins point `k` to point `k + 2`: every point is joined
      to the point two places later. */
  lemma PairUpSegments<T>(s: seq<T>)
    ensures var m := BlockCount(|s|);
            && Segments(|s|, m) == (if |s| <= 2 then 0 else |s| - 2)
            && |PairUp(s, m)| == (if |s| <= 2 then 0 else 2 * (|s| - 2))
            && forall k :: 0 <= k < |s| - 2 ==> PairUp(s, m)[2 * k] == s[k] && PairUp(s, m)[2 * k + 1] == s[k + 2]
  {
    var m := BlockCount(|s|);
    assert Segments(|s|, m) == (if |s| <= 2 then 0 else |s| - 2);
    forall k | 0 <= k < |s| - 2
      ensures PairUp(s, m)[2 * k] == s[k] && PairUp(s, m)[2 * k + 1] == s[k + 2]
    {
      PairUpAt(s, m, k);
    }
  }

  /** Every sample tick with two or more boundary points adds exactly two points
      to the start and end lists together. */
  lemma {:induction false} SidesCount(eph: Ephemeris, ks: seq<Tick>)
    ensures |SideList(eph, ks, true)| + |SideList(eph, ks, false)| == 2 * |Filter((t: Tick) => |eph.riseSet(t)| >= 2, ks)|
    decreases |ks|
  {
    if ks != [] {
      var front := ks[..|ks| - 1];
      var t := ks[|ks| - 1];
      SidesCount(eph, front);
      assert ks == front + [t];
      FilterSnoc((t: Tick) => |eph.riseSet(t)| >= 2, front, t);
    }
  }

  /** The computation fails exactly when some sample tick has a single boundary
      point, and then it names the first such tick. */
  lemma RiseSetFailsOnSinglePoint(eph: Ephemeris, limits: Limits, step: int)
    requires step > 0
    ensures RiseSetOf(eph, limits, step).Failure? <==> exists t :: t in LineTicks(limits, step) && |eph.riseSet(t)| == 1
    ensures RiseSetOf(eph, limits, step).Failure? ==>
              IsFirstHit(SinglePoint(eph), LineTicks(limits, step), step, RiseSetOf(eph, limits, step).error)
  {
    var ts := LineTicks(limits, step);
    FirstHitOnScan(SinglePoint(eph), limits.jtMin - limits.temporalRes, limits.jtMax + limits.temporalRes, step);
    if FirstHit(SinglePoint(eph), ts).None? {
      assert forall t :: t in ts ==> !SinglePoint(eph)(t);
    }
  }

  /** The number of pair entries `n` points give: `2(n - 2)`, none below three. */
  function PairEntries(n: nat): nat
  {
    if n <= 2 then 0 else 2 * (n - 2)
  }

  /** The joined list opens with the pair entries: segment `k` is point `k` and point
      `k + 2`, both defined. */
  lemma JoinedSegments(s: seq<Vec3>)
    ensures |Joined(s)| == PairEntries(|s|) + 4
    ensures forall k :: 0 <= k < |s| - 2 ==> Joined(s)[2 * k] == Some(s[k]) && Joined(s)[2 * k + 1] == Some(s[k + 2])
  {
    PairUpSegments(s);
    var pairs := PairUp(s, BlockCount(|s|));
    var out := Joined(s);
    forall k | 0 <= k < |s| - 2
      ensures out[2 * k] == Some(s[k]) && out[2 * k + 1] == Some(s[k + 2])
    {
      assert out[2 * k] == Defined(pairs)[2 * k];
      assert out[2 * k + 1] == Defined(pairs)[2 * k + 1];
    }
  }

  /** The four closing entries of a joined list are its first two and last two
      points, each defined exactly when the list is long enough. */
  lemma JoinedEnds(s: seq<Vec3>)
    ensures |Joined(s)| == PairEntries(|s|) + 4
    ensures Joined(s)[PairEntries(|s|)] == Lookup(s, 0)
    ensures Joined(s)[PairEntries(|s|) + 1] == Lookup(s, 1)
    ensures Joined(s)[PairEntries(|s|) + 2] == Lookup(s, |s| - 2)
    ensures Joined(s)[PairEntries(|s|) + 3] == Lookup(s, |s| - 1)
  {
    var n := |Defined(PairUp(s, BlockCount(|s|)))|;
    assert n == 2 * Segments(|s|, BlockCount(|s|));
    assert n == PairEntries(|s|);
    var tail := [Lookup(s, 0), Lookup(s, 1), Lookup(s, |s| - 2), Lookup(s, |s| - 1)];
    assert Joined(s)[n..] == tail;
  }

  /** On success, the output is the joined start list and the joined end list:
      every segment is fully defined, and the closing entries of a side are defined
      exactly when the side has enough points. */
  lemma JoinedShape(s: seq<Vec3>)
    ensures |Joined(s)| == PairEntries(|s|) + 4
    ensures forall k :: 0 <= k < |s| - 2 ==> Joined(s)[2 * k] == Some(s[k]) && Joined(s)[2 * k + 1] == Some(s[k + 2])
    ensures Joined(s)[PairEntries(|s|)].Some? <==> |s| >= 1
    ensures Joined(s)[PairEntries(|s|) + 1].Some? <==> |s| >= 2
    ensures Joined(s)[PairEntries(|s|) + 2].Some? <==> |s| >= 2
    ensures Joined(s)[PairEntries(|s|) + 3].Some? <==> |s| >= 1
  {
    JoinedSegments(s);
    JoinedEnds(s);
  }
}
