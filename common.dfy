/** Shared vocabulary of the eclipse model: optional values, time ticks, points,
    scan grids of the `for (JT = a; JT < b; JT += step)` loops and sequence helpers. */
module Common {

  /** An optional value; `None` stands for JavaScript's NaN or `undefined`. */
  datatype Option<+T> = None | Some(value: T)

  /** A value, or the error a JavaScript TypeError would have raised. */
  datatype Result<+T, +E> = Success(value: T) | Failure(error: E)

  /** Time in ticks of 0.1 s. Tick 0 is a Julian-day boundary, so hours and
      half hours start at multiples of `Hour` and `HalfHour`. */
  type Tick = int

  const Second: Tick := 10
  const Minute: Tick := 60 * Second
  const HalfHour: Tick := 30 * Minute
  const Hour: Tick := 60 * Minute

  /** A Cartesian position (Earth-fixed frame). */
  datatype Vec3 = Vec3(x: real, y: real, z: real)

  /** A geodetic position in degrees. */
  datatype Geo = Geo(lat: real, lon: real)

  /** `orbitsjs.vecMul`: multiplication of a vector by a scalar. */
  function Scale(v: Vec3, k: real): Vec3
  {
    Vec3(v.x * k, v.y * k, v.z * k)
  }

  /** `Math.sign` on a number that is not NaN. */
  function Sign(x: real): (r: int)
    ensures r == 0 <==> x == 0.0
    ensures r == 1 <==> x > 0.0
    ensures r == -1 <==> x < 0.0
  {
    if x > 0.0 then 1 else if x < 0.0 then -1 else 0
  }

  /** JavaScript's `s[i]`: the element, or `undefined` outside the array. */
  function Lookup<T>(s: seq<T>, i: int): (r: Option<T>)
    ensures r.Some? <==> 0 <= i < |s|
    ensures r.Some? ==> r.value == s[i]
  {
    if 0 <= i < |s| then Some(s[i]) else None
  }

  /** `t` comes strictly before `u` when time is walked with the signed `step`. */
  predicate Precedes(t: Tick, u: Tick, step: int)
  {
    if step > 0 then t < u else t > u
  }

  /** The elements of `s` strictly increase. */
  predicate Increasing(s: seq<int>)
  {
    forall i, j :: 0 <= i < j < |s| ==> s[i] < s[j]
  }

  /** The sample times of a scan loop that starts at `start`, moves by `step`
      (forward when positive, backward when negative) and runs while the time
      has not reached `stop` (`JT < stop` forward, `JT > stop` backward). */
  function ScanTicks(start: Tick, stop: Tick, step: int): (ts: seq<Tick>)
    requires step != 0
    ensures |ts| == 0 <==> !Precedes(start, stop, step)
    ensures |ts| > 0 ==> ts[0] == start && !Precedes(ts[|ts| - 1] + step, stop, step)
    ensures forall i :: 0 <= i < |ts| ==>
              Precedes(ts[i], stop, step) && (ts[i] == start || Precedes(start, ts[i], step))
    decreases if step > 0 then stop - start else start - stop
  {
    if !Precedes(start, stop, step) then [] else [start] + ScanTicks(start + step, stop, step)
  }

  /** Consecutive samples of a scan are one step apart. */
  lemma {:induction false} ScanTicksNext(start: Tick, stop: Tick, step: int, i: nat)
    requires step != 0
    requires i + 1 < |ScanTicks(start, stop, step)|
    ensures ScanTicks(start, stop, step)[i + 1] == ScanTicks(start, stop, step)[i] + step
    decreases i
  {
    if i > 0 {
      ScanTicksNext(start + step, stop, step, i - 1);
    }
  }

  /** One step of a scan loop at sample `i`: the sample is before the stop, and the
      next value of the loop variable is the next sample or is past the stop. */
  lemma ScanTicksStep(start: Tick, stop: Tick, step: int, i: nat)
    requires step != 0
    requires i < |ScanTicks(start, stop, step)|
    ensures Precedes(ScanTicks(start, stop, step)[i], stop, step)
    ensures i + 1 < |ScanTicks(start, stop, step)| ==>
              ScanTicks(start, stop, step)[i + 1] == ScanTicks(start, stop, step)[i] + step
    ensures i + 1 == |ScanTicks(start, stop, step)| ==>
              !Precedes(ScanTicks(start, stop, step)[i] + step, stop, step)
  {
    if i + 1 < |ScanTicks(start, stop, step)| {
      ScanTicksNext(start, stop, step, i);
    }
  }

  /** The `i`-th sample of a scan is `i` steps from its start. */
  lemma {:induction false} ScanTicksAt(start: Tick, stop: Tick, step: int, i: nat)
    requires step != 0
    requires i < |ScanTicks(start, stop, step)|
    ensures ScanTicks(start, stop, step)[i] == start + i * step
    decreases i
  {
    if i > 0 {
      ScanTicksAt(start + step, stop, step, i - 1);
      assert ScanTicks(start, stop, step)[i] == ScanTicks(start + step, stop, step)[i - 1];
      DistributeStep(start, i, step);
    }
  }

  /** The samples of a scan are strictly ordered in walking order. */
  lemma {:induction false} ScanTicksOrdered(start: Tick, stop: Tick, step: int, i: nat, j: nat)
    requires step != 0
    requires i < j < |ScanTicks(start, stop, step)|
    ensures Precedes(ScanTicks(start, stop, step)[i], ScanTicks(start, stop, step)[j], step)
    decreases i
  {
    if i > 0 {
      ScanTicksOrdered(start + step, stop, step, i - 1, j - 1);
    }
  }

  /** A forward scan increases strictly. */
  lemma ScanTicksIncreasing(start: Tick, stop: Tick, step: int)
    requires step > 0
    ensures Increasing(ScanTicks(start, stop, step))
  {
    var ts := ScanTicks(start, stop, step);
    forall i, j | 0 <= i < j < |ts| ensures ts[i] < ts[j] {
      ScanTicksOrdered(start, stop, step, i, j);
    }
  }

  /** The stop one tick past `t` in walking direction: a loop bounded by it still
      visits `t` (`JT <= t` forward, `JT >= t` backward). */
  function OnePast(t: Tick, step: int): (r: Tick)
    ensures Precedes(t, r, step)
  {
    if step > 0 then t + 1 else t - 1
  }

  /** A scan of `n + 1` samples reaches `start + n * step`. */
  lemma {:induction false} ScanTicksReaches(start: Tick, target: Tick, n: nat, step: int)
    requires step != 0
    requires target == start + n * step
    ensures target in ScanTicks(start, OnePast(target, step), step)
    decreases n
  {
    var stop := OnePast(target, step);
    if n == 0 {
      assert ScanTicks(start, stop, step)[0] == target;
    } else {
      DistributeStep(start, n, step);
      ScanTicksReaches(start + step, target, n - 1, step);
      var rest := ScanTicks(start + step, stop, step);
      assert rest[0] == start + step;
      assert ScanTicks(start, stop, step) == [start] + rest;
    }
  }

  lemma DistributeStep(start: Tick, n: nat, step: int)
    ensures start + step + (n - 1) * step == start + n * step
  {
  }

  /** The first element of `s` that satisfies `p`, if any (a scan loop that stops at
      its first hit with `break`). */
  function FirstHit(p: Tick -> bool, s: seq<Tick>): (r: Option<Tick>)
    ensures r.Some? ==> r.value in s && p(r.value)
    ensures r.None? ==> forall t :: t in s ==> !p(t)
  {
    if s == [] then None else if p(s[0]) then Some(s[0]) else FirstHit(p, s[1..])
  }

  /** `t` is the first sample of the scan `ts`, walked with `step`, that satisfies `p`. */
  ghost predicate IsFirstHit(p: Tick -> bool, ts: seq<Tick>, step: int, t: Tick)
  {
    t in ts && p(t) && forall u :: u in ts && Precedes(u, t, step) ==> !p(u)
  }

  /** The first hit sits at an index before which no element passes. */
  lemma {:induction false} FirstHitIndex(p: Tick -> bool, s: seq<Tick>) returns (j: nat)
    requires FirstHit(p, s).Some?
    ensures j < |s| && s[j] == FirstHit(p, s).value
    ensures forall i :: 0 <= i < j ==> !p(s[i])
    decreases |s|
  {
    if p(s[0]) {
      j := 0;
    } else {
      var k := FirstHitIndex(p, s[1..]);
      j := k + 1;
      forall i | 0 <= i < j ensures !p(s[i]) {
        if i > 0 {
          assert s[i] == s[1..][i - 1];
        }
      }
    }
  }

  /** The first hit of a scan is its start when the start passes, and otherwise the
      first hit of the scan one step later. */
  lemma FirstHitScanStep(p: Tick -> bool, start: Tick, stop: Tick, step: int)
    requires step != 0 && Precedes(start, stop, step)
    ensures FirstHit(p, ScanTicks(start, stop, step)) ==
              if p(start) then Some(start) else FirstHit(p, ScanTicks(start + step, stop, step))
  {
    var scan := ScanTicks(start, stop, step);
    assert scan[1..] == ScanTicks(start + step, stop, step);
  }

  /** On a scan grid, `FirstHit` is the earliest sample in walking order that satisfies `p`. */
  lemma FirstHitOnScan(p: Tick -> bool, start: Tick, stop: Tick, step: int)
    requires step != 0
    ensures FirstHit(p, ScanTicks(start, stop, step)).Some? ==>
              IsFirstHit(p, ScanTicks(start, stop, step), step, FirstHit(p, ScanTicks(start, stop, step)).value)
  {
    var ts := ScanTicks(start, stop, step);
    if FirstHit(p, ts).Some? {
      var v := FirstHit(p, ts).value;
      var j := FirstHitIndex(p, ts);
      forall u | u in ts && Precedes(u, v, step) ensures !p(u) {
        var i :| 0 <= i < |ts| && ts[i] == u;
        if i > j {
          ScanTicksOrdered(start, stop, step, j, i);
        }
      }
    }
  }

  /** The elements of `s` that satisfy `p`, in their order in `s`. */
  function Filter<T>(p: T -> bool, s: seq<T>): (r: seq<T>)
    ensures |r| <= |s|
    ensures forall x :: x in r ==> x in s && p(x)
  {
    if s == [] then [] else Filter(p, s[..|s| - 1]) + (if p(s[|s| - 1]) then [s[|s| - 1]] else [])
  }

  /** Every element of `s` that satisfies `p` is kept by `Filter`. */
  lemma {:induction false} FilterKeeps<T>(p: T -> bool, s: seq<T>, x: T)
    requires x in s && p(x)
    ensures x in Filter(p, s)
    decreases |s|
  {
    if s[|s| - 1] != x {
      assert x in s[..|s| - 1] by {
        var i :| 0 <= i < |s| && s[i] == x;
        assert s[..|s| - 1][i] == x;
      }
      FilterKeeps(p, s[..|s| - 1], x);
    }
  }

  /** Filtering a strictly increasing sequence leaves it strictly increasing. */
  lemma {:induction false} FilterIncreasing(p: Tick -> bool, s: seq<Tick>)
    requires Increasing(s)
    ensures Increasing(Filter(p, s))
    decreases |s|
  {
    if s != [] {
      var front := s[..|s| - 1];
      FilterIncreasing(p, front);
      var r := Filter(p, s);
      var rf := Filter(p, front);
      forall i, j | 0 <= i < j < |r| ensures r[i] < r[j] {
        assert r == rf + (if p(s[|s| - 1]) then [s[|s| - 1]] else []);
        if j < |rf| {
          assert r[i] == rf[i] && r[j] == rf[j];
        } else {
          assert r[j] == s[|s| - 1] && r[i] == rf[i];
          assert rf[i] in front;
          var k :| 0 <= k < |front| && front[k] == rf[i];
          assert s[k] == r[i];
        }
      }
    }
  }

  /** Appending one element to the filtered sequence. */
  lemma FilterSnoc<T>(p: T -> bool, s: seq<T>, x: T)
    ensures Filter(p, s + [x]) == Filter(p, s) + (if p(x) then [x] else [])
  {
    assert (s + [x])[..|s|] == s;
  }

  /** `f` applied to every element of `s`. */
  function Map<T, U>(f: T -> U, s: seq<T>): (r: seq<U>)
    ensures |r| == |s|
    ensures forall i :: 0 <= i < |s| ==> r[i] == f(s[i])
  {
    if s == [] then [] else Map(f, s[..|s| - 1]) + [f(s[|s| - 1])]
  }

  /** Mapping distributes over appending one element. */
  lemma MapSnoc<T, U>(f: T -> U, s: seq<T>, x: T)
    ensures Map(f, s + [x]) == Map(f, s) + [f(x)]
  {
    assert (s + [x])[..|s|] == s;
  }

  /** The prefix up to `i + 1` is the prefix up to `i` and element `i`; one step
      further along, the suffix from `i` loses its head. */
  lemma PrefixSnoc<T>(s: seq<T>, i: nat)
    requires i < |s|
    ensures s[..i + 1] == s[..i] + [s[i]]
    ensures s[..i + 1][..i] == s[..i]
    ensures s[i..][1..] == s[i + 1..]
  {
  }

  /** A scan from sample `i` on passes a sample that fails the test and stops at
      one that passes it. */
  lemma FirstHitFrom(p: Tick -> bool, s: seq<Tick>, i: nat)
    requires i < |s|
    ensures p(s[i]) ==> FirstHit(p, s[i..]) == Some(s[i])
    ensures !p(s[i]) ==> FirstHit(p, s[i..]) == FirstHit(p, s[i + 1..])
  {
    assert s[i..][0] == s[i];
    assert s[i..][1..] == s[i + 1..];
  }
}
