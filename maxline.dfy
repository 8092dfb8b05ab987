/** The maximum-eclipse-at-rise/set lines of visualization/Lines.js (`computeMax`):
    at every sample tick the penumbral boundary is probed in 0.1° steps of its
    angle; where the one-minute change of magnitude changes sign and the magnitude
    is noticeable, the boundary point is kept, on the rising side when the Sun climbs
    there and on the setting side otherwise. Each side is sorted by its z
    coordinate and chained into two-point segments. */
module MaxLine {
  import opened Common
  import opened Eclipse
  import opened Lines

  /** The last boundary angle probed, in tenths of a degree (360°). */
  const LastAngle: int := 3600

  /** The magnitude a kept point must exceed. */
  const MagFloor: real := 0.005

  /** Metres to kilometres, lifted slightly above the surface. */
  const MaxScale: real := 0.001001

  /** The probe at angle `k` is a maximum-line point: not the first angle, the
      magnitude change has another sign than at the previous angle, and the
      magnitude exceeds the floor. */
  predicate IsMaxHit(eph: Ephemeris, t: Tick, k: int)
  {
    k > 0 && Sign(eph.maxProbe(t, k).magDer) != Sign(eph.maxProbe(t, k - 1).magDer) && eph.maxProbe(t, k).mag > MagFloor
  }

  /** The point a hit contributes, in km. */
  function HitPoint(eph: Ephemeris, t: Tick, k: int): Vec3
  {
    Scale(eph.maxProbe(t, k).efi, MaxScale)
  }

  /** The hits of one side at tick `t` among the angles below `m`, in angle order. */
  function AngleHits(eph: Ephemeris, t: Tick, m: nat, rising: bool): seq<Vec3>
  {
    if m == 0 then []
    else
      AngleHits(eph, t, m - 1, rising)
      + (if IsMaxHit(eph, t, m - 1) && eph.maxProbe(t, m - 1).sunRising == rising then [HitPoint(eph, t, m - 1)] else [])
  }

  /** The hits of one side at tick `t` over all angles 0..360°. */
  function TickHits(eph: Ephemeris, t: Tick, rising: bool): seq<Vec3>
  {
    AngleHits(eph, t, LastAngle + 1, rising)
  }

  /** The hits of one side over the sample ticks `ks`, tick by tick, each over all
      angles 0..360°: `lineRise` when `rising`, `lineSet` otherwise. */
  function SideHits(eph: Ephemeris, ks: seq<Tick>, rising: bool): seq<Vec3>
  {
    if ks == [] then []
    else SideHits(eph, ks[..|ks| - 1], rising) + TickHits(eph, ks[|ks| - 1], rising)
  }

  lemma SideHitsSnoc(eph: Ephemeris, ks: seq<Tick>, t: Tick, rising: bool)
    ensures SideHits(eph, ks + [t], rising) == SideHits(eph, ks, rising) + TickHits(eph, t, rising)
  {
    assert (ks + [t])[..|ks|] == ks;
  }

  /** The angle loop at one tick, appending its hits to the two sides. */
  method ProbeAngles(eph: Ephemeris, t: Tick, rise0: seq<Vec3>, set0: seq<Vec3>)
    returns (lineRise: seq<Vec3>, lineSet: seq<Vec3>)
    ensures lineRise == rise0 + TickHits(eph, t, true)
    ensures lineSet == set0 + TickHits(eph, t, false)
  {
    lineRise, lineSet := rise0, set0;
    var prevDer: Option<real> := None;
    var k := 0;
    while k <= LastAngle
      invariant 0 <= k <= LastAngle + 1
      invariant k > 0 ==> prevDer == Some(eph.maxProbe(t, k - 1).magDer)
      invariant lineRise == rise0 + AngleHits(eph, t, k, true)
      invariant lineSet == set0 + AngleHits(eph, t, k, false)
    {
      var probe := eph.maxProbe(t, k);
      var magDer := probe.magDer;
      // Before the first angle the previous change is NaN, which every sign differs from.
      var turns := prevDer.None? || Sign(magDer) != Sign(prevDer.value);
      if k > 0 && turns && probe.mag > MagFloor {
        if probe.sunRising {
          lineRise := lineRise + [Scale(probe.efi, MaxScale)];
        } else {
          lineSet := lineSet + [Scale(probe.efi, MaxScale)];
        }
      }
      prevDer := Some(magDer);
      k := k + 1;
    }
  }

  /** The points are ordered by their z coordinate. */
  predicate SortedByZ(s: seq<Vec3>)
  {
    forall i, j :: 0 <= i < j < |s| ==> s[i].z <= s[j].z
  }

  /** Insertion of `p` before the first point whose z is not below it. */
  function InsertByZ(p: Vec3, s: seq<Vec3>): (r: seq<Vec3>)
    ensures |r| == |s| + 1
  {
    if s == [] then [p] else if p.z <= s[0].z then [p] + s else [s[0]] + InsertByZ(p, s[1..])
  }

  /** `sort((a, b) => a[2] - b[2])`: the points ordered by their z coordinate. */
  function SortByZ(s: seq<Vec3>): (r: seq<Vec3>)
    ensures |r| == |s|
  {
    if s == [] then [] else InsertByZ(s[0], SortByZ(s[1..]))
  }

  /** Every point of `s` has a z coordinate of at least `b`. */
  predicate AllAbove(s: seq<Vec3>, b: real)
  {
    forall i :: 0 <= i < |s| ==> b <= s[i].z
  }

  lemma {:induction false} InsertByZPermutes(p: Vec3, s: seq<Vec3>)
    ensures multiset(InsertByZ(p, s)) == multiset(s) + multiset{p}
    decreases |s|
  {
    if s != [] && p.z > s[0].z {
      InsertByZPermutes(p, s[1..]);
      assert s == [s[0]] + s[1..];
    }
  }

  lemma {:induction false} InsertByZAbove(p: Vec3, s: seq<Vec3>, b: real)
    requires AllAbove(s, b) && b <= p.z
    ensures AllAbove(InsertByZ(p, s), b)
    decreases |s|
  {
    if s != [] && p.z > s[0].z {
      InsertByZAbove(p, s[1..], b);
      var r := InsertByZ(p, s);
      assert r == [s[0]] + InsertByZ(p, s[1..]);
    }
  }

  lemma {:induction false} InsertByZSorted(p: Vec3, s: seq<Vec3>)
    requires SortedByZ(s)
    ensures SortedByZ(InsertByZ(p, s))
    decreases |s|
  {
    if s != [] {
      if p.z <= s[0].z {
        var r := [p] + s;
        forall i, j | 0 <= i < j < |r| ensures r[i].z <= r[j].z {
          if i > 0 {
            assert r[i] == s[i - 1];
          }
          assert r[j] == s[j - 1];
        }
      } else {
        InsertByZSorted(p, s[1..]);
        var rest := InsertByZ(p, s[1..]);
        assert AllAbove(s[1..], s[0].z) by {
          forall i | 0 <= i < |s[1..]| ensures s[0].z <= s[1..][i].z {
            assert s[1..][i] == s[i + 1];
          }
        }
        InsertByZAbove(p, s[1..], s[0].z);
        var r := [s[0]] + rest;
        forall i, j | 0 <= i < j < |r| ensures r[i].z <= r[j].z {
          assert r[j] == rest[j - 1];
          if i > 0 {
            assert r[i] == rest[i - 1];
          }
        }
      }
    }
  }

  /** Sorting orders the points by z and keeps exactly the same points. */
  lemma {:induction false} SortByZCorrect(s: seq<Vec3>)
    ensures SortedByZ(SortByZ(s))
    ensures multiset(SortByZ(s)) == multiset(s)
    decreases |s|
  {
    if s != [] {
      SortByZCorrect(s[1..]);
      InsertByZSorted(s[0], SortByZ(s[1..]));
      InsertByZPermutes(s[0], SortByZ(s[1..]));
      assert s == [s[0]] + s[1..];
    }
  }

  /** The max lines as `computeMax` returns them: the setting side, then the rising
      side, each sorted and chained. */
  function MaxLinesOf(eph: Ephemeris, limits: Limits, step: int): (seq<Vec3>, seq<Vec3>)
    requires step > 0
  {
    (Chain(SortByZ(SideHits(eph, LineTicks(limits, step), false))),
     Chain(SortByZ(SideHits(eph, LineTicks(limits, step), true))))
  }

  /** `computeMax`. */
  method ComputeMax(eph: Ephemeris, limits: Limits, step: int) returns (setOut: seq<Vec3>, riseOut: seq<Vec3>)
    requires step > 0
    ensures (setOut, riseOut) == MaxLinesOf(eph, limits, step)
  {
    var start, stop := limits.jtMin - limits.temporalRes, limits.jtMax + limits.temporalRes;
    ghost var ts := ScanTicks(start, stop, step);
    assert ts == LineTicks(limits, step);
    ghost var i: nat := 0;
    var lineRise: seq<Vec3> := [];
    var lineSet: seq<Vec3> := [];
    var t := start;
    while t < stop
      invariant i <= |ts|
      invariant i < |ts| ==> ts[i] == t
      invariant i == |ts| ==> t >= stop
      invariant lineRise == SideHits(eph, ts[..i], true)
      invariant lineSet == SideHits(eph, ts[..i], false)
      decreases stop - t
    {
      PrefixSnoc(ts, i);
      SideHitsSnoc(eph, ts[..i], t, true);
      SideHitsSnoc(eph, ts[..i], t, false);
      lineRise, lineSet := ProbeAngles(eph, t, lineRise, lineSet);
      ScanTicksStep(start, stop, step, i);
      t := t + step;
      i := i + 1;
    }
    assert ts[..i] == ts;
    assert lineSet == SideHits(eph, LineTicks(limits, step), false);
    assert lineRise == SideHits(eph, LineTicks(limits, step), true);
    setOut := ChainPairs(SortByZ(lineSet));
    riseOut := ChainPairs(SortByZ(lineRise));
  }

  /** The hits at one tick are exactly the scaled probes at the angles that are
      maximum-line hits on that side. */
  lemma {:induction false} AngleHitsExact(eph: Ephemeris, t: Tick, m: nat, rising: bool, p: Vec3)
    ensures p in AngleHits(eph, t, m, rising) <==>
              exists k :: 0 <= k < m && IsMaxHit(eph, t, k) && eph.maxProbe(t, k).sunRising == rising && p == HitPoint(eph, t, k)
    decreases m
  {
    if m > 0 {
      var last := m - 1;
      var front := AngleHits(eph, t, last, rising);
      var isHit := IsMaxHit(eph, t, last) && eph.maxProbe(t, last).sunRising == rising;
      var tail := if isHit then [HitPoint(eph, t, last)] else [];
      assert AngleHits(eph, t, m, rising) == front + tail;
      AngleHitsExact(eph, t, last, rising, p);
      if p in front {
        var k :| 0 <= k < last && IsMaxHit(eph, t, k) && eph.maxProbe(t, k).sunRising == rising && p == HitPoint(eph, t, k);
        assert 0 <= k < m;
      } else if p in tail {
        assert isHit && p == HitPoint(eph, t, last);
      } else {
        assert p !in AngleHits(eph, t, m, rising);
        forall k | 0 <= k < m && IsMaxHit(eph, t, k) && eph.maxProbe(t, k).sunRising == rising
          ensures p != HitPoint(eph, t, k)
        {
          if k == last {
            assert HitPoint(eph, t, k) in tail;
          }
        }
      }
    }
  }

  /** A point is on a side exactly when some sample tick and angle is a hit on that
      side with that point. */
  lemma {:induction false} SideHitsExact(eph: Ephemeris, ks: seq<Tick>, rising: bool, p: Vec3)
    ensures p in SideHits(eph, ks, rising) <==>
              exists t, k :: t in ks && 0 <= k <= LastAngle && IsMaxHit(eph, t, k)
                             && eph.maxProbe(t, k).sunRising == rising && p == HitPoint(eph, t, k)
    decreases |ks|
  {
    if ks != [] {
      var front := ks[..|ks| - 1];
      var t := ks[|ks| - 1];
      var before := SideHits(eph, front, rising);
      var here := TickHits(eph, t, rising);
      assert SideHits(eph, ks, rising) == before + here;
      SideHitsExact(eph, front, rising, p);
      AngleHitsExact(eph, t, LastAngle + 1, rising, p);
      assert t in ks;
      if p in before {
        var u, k :| u in front && 0 <= k <= LastAngle && IsMaxHit(eph, u, k)
                    && eph.maxProbe(u, k).sunRising == rising && p == HitPoint(eph, u, k);
        assert u in ks;
      } else if p in here {
        var k :| 0 <= k < LastAngle + 1 && IsMaxHit(eph, t, k) && eph.maxProbe(t, k).sunRising == rising && p == HitPoint(eph, t, k);
        assert 0 <= k <= LastAngle;
      } else {
        assert p !in SideHits(eph, ks, rising);
        forall u, k | u in ks && 0 <= k <= LastAngle && IsMaxHit(eph, u, k) && eph.maxProbe(u, k).sunRising == rising
          ensures p != HitPoint(eph, u, k)
        {
          if u != t {
            assert u in front by {
              var j :| 0 <= j < |ks| && ks[j] == u;
              assert j < |ks| - 1 && front[j] == u;
            }
          }
        }
      }
    }
  }

  /** Each side of the max lines is the chain of its hits in z order: the sorted list
      holds exactly the side's hits, segment `j` joins its `j`-th and `j + 1`-th
      point, and no segment descends in z. */
  lemma SortedChainAscends(hits: seq<Vec3>)
    ensures multiset(SortByZ(hits)) == multiset(hits)
    ensures |Chain(SortByZ(hits))| == (if |hits| == 0 then 0 else 2 * (|hits| - 1))
    ensures forall j :: 0 <= j < |hits| - 1 ==>
              Chain(SortByZ(hits))[2 * j] == SortByZ(hits)[j] && Chain(SortByZ(hits))[2 * j + 1] == SortByZ(hits)[j + 1]
              && Chain(SortByZ(hits))[2 * j].z <= Chain(SortByZ(hits))[2 * j + 1].z
  {
    var sorted := SortByZ(hits);
    SortByZCorrect(hits);
    var c := Chain(sorted);
    ChainSegments(sorted);
    forall j | 0 <= j < |hits| - 1
      ensures c[2 * j] == sorted[j] && c[2 * j + 1] == sorted[j + 1] && c[2 * j].z <= c[2 * j + 1].z
    {
      assert c[2 * j] == sorted[j] && c[2 * j + 1] == sorted[j + 1];
      assert SortedByZ(sorted);
    }
  }
}
