/** The viewer of app.js: the table of eclipse names, the next/previous navigation, the
    camera target that follows the shadow, and the time arithmetic of the animation
    loop (warp factor, time slider, and the return to the start of the window).
    Application time is a real number of ticks; the wall clock, the slider's DOM
    element and the GUI settings enter as parameters. */
module App {
  import opened Common
  import opened Eclipse
  import opened Format

  // ---------------------------------------------------------------------------
  // Eclipse names (app.js lines 77-88)

  /** An element of `orbitsjs.solarEclipses`: the time of maximum and the type. */
  datatype EclipseEntry = EclipseEntry(jtMax: real, kind: string)

  /** `YYYY-MM-DD (type)` from the calendar date of the maximum. */
  function EclipseName(calendar: real -> Greg, e: EclipseEntry): string
  {
    var g := calendar(e.jtMax);
    IntToString(g.year) + "-" + ToFixed(g.month) + "-" + ToFixed(g.mday) + " (" + e.kind + ")"
  }

  /** The table `eclipseInds` after the names `names` have been entered in order:
      each name maps to the index where it was entered last. */
  function LastIndex(names: seq<string>): map<string, nat>
  {
    if names == [] then map[]
    else LastIndex(names[..|names| - 1])[names[|names| - 1] := |names| - 1]
  }

  /** The table holds exactly the names, and maps each name to its last occurrence. */
  lemma {:induction false} LastIndexExact(names: seq<string>)
    ensures forall k :: k in LastIndex(names) <==> k in names
    ensures forall k :: k in LastIndex(names) ==>
              LastIndex(names)[k] < |names| && names[LastIndex(names)[k]] == k
              && forall j :: LastIndex(names)[k] < j < |names| ==> names[j] != k
    decreases |names|
  {
    if names != [] {
      var front, last := names[..|names| - 1], names[|names| - 1];
      LastIndexExact(front);
      assert names == front + [last];
      forall k ensures k in names <==> k in front || k == last {
        if k in names && k != last {
          var i :| 0 <= i < |names| && names[i] == k;
          assert front[i] == k;
        }
      }
    }
  }

  /** The name of each eclipse, as a function of the entry. */
  function NameOf(calendar: real -> Greg): EclipseEntry -> string
  {
    e => EclipseName(calendar, e)
  }

  /** The loop of app.js lines 81-88: the list of names and the name-to-index table. */
  method BuildNameTable(eclipses: seq<EclipseEntry>, calendar: real -> Greg)
    returns (eclipseNames: seq<string>, eclipseInds: map<string, nat>)
    ensures eclipseNames == Map(NameOf(calendar), eclipses)
    ensures eclipseInds == LastIndex(eclipseNames)
  {
    eclipseNames := [];
    eclipseInds := map[];
    var indEclipse := 0;
    while indEclipse < |eclipses|
      invariant 0 <= indEclipse <= |eclipses|
      invariant eclipseNames == Map(NameOf(calendar), eclipses[..indEclipse])
      invariant eclipseInds == LastIndex(eclipseNames)
    {
      var eclipse := eclipses[indEclipse];
      var eclipseName := EclipseName(calendar, eclipse);
      ghost var before := eclipseNames;
      PrefixSnoc(eclipses, indEclipse);
      MapSnoc(NameOf(calendar), eclipses[..indEclipse], eclipse);
      eclipseNames := eclipseNames + [eclipseName];
      LastIndexSnoc(before, eclipseName);
      eclipseInds := eclipseInds[eclipseName := indEclipse];
      indEclipse := indEclipse + 1;
    }
    assert eclipses[..indEclipse] == eclipses;
  }

  /** Entering one more name records its index and keeps the rest of the table. */
  lemma LastIndexSnoc(names: seq<string>, x: string)
    ensures LastIndex(names + [x]) == LastIndex(names)[x := |names|]
  {
    assert (names + [x])[..|names|] == names;
  }

  // ---------------------------------------------------------------------------
  // Camera target (app.js lines 191-237)

  /** The value of pi used by `deg2Rad` and `rad2Deg`. */
  const Pi: real := 3.141592653589793

  function Deg2Rad(d: real): real
  {
    d * Pi / 180.0
  }

  function Rad2Deg(r: real): real
  {
    r * 180.0 / Pi
  }

  /** A camera rotation about the x and the z axis, in radians. */
  datatype Rotation = Rotation(rotX: real, rotZ: real)

  /** The rotation that points the camera at a geodetic position. */
  function Aim(g: Geo): Rotation
  {
    Rotation(Deg2Rad(-90.0 + g.lat), Deg2Rad(-90.0 - g.lon))
  }

  /** The rotation at a position that may be NaN. */
  function AimAt(p: Option<Geo>): (r: Option<Rotation>)
    ensures r.Some? <==> p.Some?
  {
    if p.Some? then Some(Aim(p.value)) else None
  }

  /** The z rotation of a rotation that may be NaN. */
  function RotZOf(r: Option<Rotation>): Option<real>
  {
    if r.Some? then Some(r.value.rotZ) else None
  }

  /** The x rotation of a rotation that may be NaN. */
  function RotXOf(r: Option<Rotation>): Option<real>
  {
    if r.Some? then Some(r.value.rotX) else None
  }

  /** The latitude and longitude the camera controls display for a rotation
      (`createViewMatrix`, app.js lines 522-523). */
  function CameraGeo(r: Rotation): Geo
  {
    Geo(90.0 + Rad2Deg(r.rotX), -90.0 - Rad2Deg(r.rotZ))
  }

  /** The camera controls show the position the camera was aimed at. */
  lemma CameraShowsAim(g: Geo)
    ensures CameraGeo(Aim(g)) == g
  {
    var x, z := -90.0 + g.lat, -90.0 - g.lon;
    assert Rad2Deg(Deg2Rad(x)) == x by { DegRadInverse(x); }
    assert Rad2Deg(Deg2Rad(z)) == z by { DegRadInverse(z); }
  }

  lemma DegRadInverse(d: real)
    ensures Rad2Deg(Deg2Rad(d)) == d
  {
    assert d * Pi / 180.0 * 180.0 == d * Pi;
  }

  /** `JT < t`, false when `t` is NaN. */
  predicate Before(jt: real, t: Option<Tick>)
  {
    t.Some? && jt < t.value as real
  }

  /** `JT > t`, false when `t` is NaN. */
  predicate After(jt: real, t: Option<Tick>)
  {
    t.Some? && jt > t.value as real
  }

  /** `computeTarget` interpolates between the penumbral contacts at `jt`. */
  predicate Interpolating(c: ContactPoints, jt: real)
  {
    c.firstUmbra.time.None? && !Before(jt, c.firstPenumbra.time) && !After(jt, c.lastPenumbra.time)
  }

  /** `computeTarget` at `jt` raises the last penumbral longitude: it interpolates
      and that longitude is below the first. */
  predicate Raises(c: ContactPoints, jt: real)
  {
    Interpolating(c, jt) && c.firstPenumbra.place.Some? && c.lastPenumbra.place.Some?
    && c.lastPenumbra.place.value.lon < c.firstPenumbra.place.value.lon
  }

  /** For longitudes in [-180, 180], the raised last longitude lies east of the first
      by less than a full turn. */
  lemma UnwrappedEast(c: ContactPoints, jt: real)
    requires Interpolating(c, jt) && c.firstPenumbra.place.Some? && c.lastPenumbra.place.Some?
    requires -180.0 <= c.firstPenumbra.place.value.lon <= 180.0
    requires -180.0 <= c.lastPenumbra.place.value.lon <= 180.0
    ensures var f, l := c.firstPenumbra.place.value.lon, Unwrapped(c, jt).lastPenumbra.place.value.lon;
      f <= l <= f + 360.0
  {
  }

  /** The contacts after `computeTarget` at `jt`: when it interpolates and the last
      penumbral longitude is below the first, the last is raised by 360 degrees. */
  function Unwrapped(c: ContactPoints, jt: real): (r: ContactPoints)
    ensures r.firstPenumbra == c.firstPenumbra && r.firstUmbra == c.firstUmbra
    ensures r.lastUmbra == c.lastUmbra && r.lastPenumbra.time == c.lastPenumbra.time
    ensures Raises(c, jt) ==>
              r.lastPenumbra.place == Some(Geo(c.lastPenumbra.place.value.lat, c.lastPenumbra.place.value.lon + 360.0))
    ensures !Raises(c, jt) ==> r == c
  {
    var first, last := c.firstPenumbra.place, c.lastPenumbra.place;
    if Interpolating(c, jt) && first.Some? && last.Some? && last.value.lon < first.value.lon then
      c.(lastPenumbra := Contact(c.lastPenumbra.time, Some(Geo(last.value.lat, last.value.lon + 360.0))))
    else c
  }

  /** The fraction of the way from the first to the last penumbral contact at `jt`;
      NaN when a time is NaN or the two contacts coincide. */
  function Progress(c: ContactPoints, jt: real): Option<real>
  {
    var tf, tl := c.firstPenumbra.time, c.lastPenumbra.time;
    if tf.Some? && tl.Some? && tl.value != tf.value
    then Some((jt - tf.value as real) / (tl.value as real - tf.value as real))
    else None
  }

  /** The interpolated target between the penumbral contacts. */
  function Interpolated(c: ContactPoints, jt: real): Option<Rotation>
  {
    var first, last, s := c.firstPenumbra.place, c.lastPenumbra.place, Progress(c, jt);
    if first.Some? && last.Some? && s.Some? then
      var f, l := first.value, last.value;
      Some(Rotation(Deg2Rad(-90.0 + f.lat + (l.lat - f.lat) * s.value),
                    Deg2Rad(-90.0 - f.lon - (l.lon - f.lon) * s.value)))
    else None
  }

  /** The target of `computeTarget` at `jt`, given the contacts it reads and the
      sub-axis point `axis`; `None` stands for NaN rotations. */
  function TargetOf(c: ContactPoints, jt: real, axis: Option<Geo>): Option<Rotation>
  {
    if c.firstUmbra.time.None? then
      if Before(jt, c.firstPenumbra.time) then AimAt(c.firstPenumbra.place)
      else if After(jt, c.lastPenumbra.time) then AimAt(c.lastPenumbra.place)
      else Interpolated(Unwrapped(c, jt), jt)
    else if Before(jt, c.firstUmbra.time) then AimAt(c.firstUmbra.place)
    else if After(jt, c.lastUmbra.time) then AimAt(c.lastUmbra.place)
    else AimAt(axis)
  }

  /** Without an umbra, the camera points at the first penumbral contact before it
      and at the last one after it. */
  lemma TargetOutsidePenumbra(c: ContactPoints, jt: real, axis: Option<Geo>)
    requires c.firstUmbra.time.None?
    ensures Before(jt, c.firstPenumbra.time) ==> TargetOf(c, jt, axis) == AimAt(c.firstPenumbra.place)
    ensures !Before(jt, c.firstPenumbra.time) && After(jt, c.lastPenumbra.time) ==>
              TargetOf(c, jt, axis) == AimAt(c.lastPenumbra.place)
  {
  }

  /** At progress 0 the interpolation aims at the first penumbral contact, at progress 1
      at the last. */
  lemma InterpolatedAtEnds(c: ContactPoints, jt: real)
    requires c.firstPenumbra.place.Some? && c.lastPenumbra.place.Some?
    ensures Progress(c, jt) == Some(0.0) ==> Interpolated(c, jt) == Some(Aim(c.firstPenumbra.place.value))
    ensures Progress(c, jt) == Some(1.0) ==> Interpolated(c, jt) == Some(Aim(c.lastPenumbra.place.value))
  {
    var f, l := c.firstPenumbra.place.value, c.lastPenumbra.place.value;
    if Progress(c, jt) == Some(1.0) {
      assert f.lat + (l.lat - f.lat) * 1.0 == l.lat;
      assert -90.0 - f.lon - (l.lon - f.lon) * 1.0 == -90.0 - l.lon;
    }
  }

  /** Without an umbra, the interpolated target starts at the first penumbral contact
      and ends at the last one (its longitude unwrapped to lie east of the first). */
  lemma TargetInterpolationEnds(c: ContactPoints, axis: Option<Geo>)
    requires c.firstUmbra.time.None?
    requires c.firstPenumbra.time.Some? && c.lastPenumbra.time.Some?
    requires c.firstPenumbra.time.value < c.lastPenumbra.time.value
    requires c.firstPenumbra.place.Some? && c.lastPenumbra.place.Some?
    ensures TargetOf(c, c.firstPenumbra.time.value as real, axis) == Some(Aim(c.firstPenumbra.place.value))
    ensures var u := Unwrapped(c, c.lastPenumbra.time.value as real);
      TargetOf(c, c.lastPenumbra.time.value as real, axis) == Some(Aim(u.lastPenumbra.place.value))
  {
    var tf, tl := c.firstPenumbra.time.value as real, c.lastPenumbra.time.value as real;
    assert Interpolating(c, tf) && Interpolating(c, tl);
    var d := tl - tf;
    assert (tf - tf) / d == 0.0;
    assert (tl - tf) / d == 1.0;
    var uf, ul := Unwrapped(c, tf), Unwrapped(c, tl);
    assert Progress(uf, tf) == Some(0.0);
    assert Progress(ul, tl) == Some(1.0);
    InterpolatedAtEnds(uf, tf);
    InterpolatedAtEnds(ul, tl);
  }

  /** Between the penumbral contacts the displayed latitude stays between theirs. */
  lemma InterpolationBetween(c: ContactPoints, jt: real, axis: Option<Geo>)
    requires Interpolating(c, jt)
    requires TargetOf(c, jt, axis).Some?
    ensures var lf, ll := c.firstPenumbra.place.value.lat, c.lastPenumbra.place.value.lat;
      var lat := CameraGeo(TargetOf(c, jt, axis).value).lat;
      (lf <= lat <= ll) || (ll <= lat <= lf)
  {
    var u := Unwrapped(c, jt);
    var s := Progress(u, jt).value;
    var tf, tl := c.firstPenumbra.time.value as real, c.lastPenumbra.time.value as real;
    assert tf <= jt <= tl;
    ProgressIsFraction(jt - tf, tl - tf);
    var lf, ll := c.firstPenumbra.place.value.lat, c.lastPenumbra.place.value.lat;
    var lat := lf + (ll - lf) * s;
    DegRadInverse(-90.0 + lat);
    BetweenEnds(lf, ll, s);
  }

  lemma ProgressIsFraction(a: real, b: real)
    requires 0.0 <= a <= b && b != 0.0
    ensures 0.0 <= a / b <= 1.0
  {
  }

  lemma BetweenEnds(x: real, y: real, s: real)
    requires 0.0 <= s <= 1.0
    ensures (x <= x + (y - x) * s <= y) || (y <= x + (y - x) * s <= x)
  {
    if x <= y {
      assert (y - x) * s <= (y - x);
    } else {
      assert (x - y) * s <= (x - y);
    }
  }

  /** With an umbra, the camera points at the first umbral contact before it, at the
      last one after it, and at the sub-axis point in between. */
  lemma TargetWithUmbra(c: ContactPoints, jt: real, axis: Option<Geo>)
    requires c.firstUmbra.time.Some?
    ensures Before(jt, c.firstUmbra.time) ==> TargetOf(c, jt, axis) == AimAt(c.firstUmbra.place)
    ensures !Before(jt, c.firstUmbra.time) && After(jt, c.lastUmbra.time) ==>
              TargetOf(c, jt, axis) == AimAt(c.lastUmbra.place)
    ensures !Before(jt, c.firstUmbra.time) && !After(jt, c.lastUmbra.time) ==>
              TargetOf(c, jt, axis) == AimAt(axis)
  {
  }

  /** Raising the longitude a second time changes nothing. */
  lemma UnwrappedIdempotent(c: ContactPoints, jt: real)
    requires c.firstPenumbra.place.Some? ==> -180.0 <= c.firstPenumbra.place.value.lon <= 180.0
    requires c.lastPenumbra.place.Some? ==> -180.0 <= c.lastPenumbra.place.value.lon <= 180.0
    ensures Unwrapped(Unwrapped(c, jt), jt) == Unwrapped(c, jt)
  {
  }

  /** The raised longitude aims the camera one full turn further about the z axis,
      which is the same orientation. */
  lemma UnwrapIsFullTurn(g: Geo)
    ensures Aim(Geo(g.lat, g.lon + 360.0)).rotZ == Aim(g).rotZ - 2.0 * Pi
    ensures Aim(Geo(g.lat, g.lon + 360.0)).rotX == Aim(g).rotX
  {
  }

  /** The loaded eclipse as far as the animation uses it: its contacts and the time
      window of the animation. */
  class EclipseState {
    var contacts: ContactPoints
    var jtMin: real
    var jtMax: real

    constructor(contacts: ContactPoints, jtMin: real, jtMax: real)
      ensures this.contacts == contacts && this.jtMin == jtMin && this.jtMax == jtMax
    {
      this.contacts := contacts;
      this.jtMin := jtMin;
      this.jtMax := jtMax;
    }

    /** `computeTarget`: the rotations to the target at `jt`; the last penumbral
        longitude may be raised by 360 degrees in place. */
    method ComputeTarget(jt: real, axis: Option<Geo>) returns (target: Option<Rotation>)
      modifies this`contacts
      ensures target == TargetOf(old(contacts), jt, axis)
      ensures contacts == Unwrapped(old(contacts), jt)
    {
      var c := contacts;
      if c.firstUmbra.time.None? {
        if Before(jt, c.firstPenumbra.time) {
          target := AimAt(c.firstPenumbra.place);
        } else if After(jt, c.lastPenumbra.time) {
          target := AimAt(c.lastPenumbra.place);
        } else {
          var first, last := c.firstPenumbra.place, c.lastPenumbra.place;
          if first.Some? && last.Some? && last.value.lon < first.value.lon {
            contacts := c.(lastPenumbra := Contact(c.lastPenumbra.time,
                                                   Some(Geo(last.value.lat, last.value.lon + 360.0))));
          }
          target := Interpolated(contacts, jt);
        }
      } else if Before(jt, c.firstUmbra.time) {
        target := AimAt(c.firstUmbra.place);
      } else if After(jt, c.lastUmbra.time) {
        target := AimAt(c.lastUmbra.place);
      } else {
        target := AimAt(axis);
      }
    }
  }

  // ---------------------------------------------------------------------------
  // Time arithmetic of `drawScene` (app.js lines 239-370)

  /** The slider's range: positions 0 .. `SliderMax`. */
  const SliderMax: int := 10000
  /** How long a slider movement keeps control of the time, in ms. */
  const SliderHold: real := 1000.0
  /** The warp factor that replaces 0. */
  const MinWarp: real := 0.00001

  /** `guiControls.warpFactor`, with 0 replaced to avoid dividing by zero. */
  function EffectiveWarp(setting: real): (w: real)
    ensures w != 0.0
    ensures setting != 0.0 ==> w == setting
  {
    if setting == 0.0 then MinWarp else setting
  }

  /** The displayed time: `warp * (todayJT - JTstart) + JTmin`. */
  function DisplayTime(warp: real, today: real, jtStart: real, jtMin: real): real
  {
    warp * (today - jtStart) + jtMin
  }

  /** `JTstart` after a warp change: the start that keeps the displayed time. */
  function Rebased(warpPrev: real, warpNew: real, today: real, jtStart: real): real
    requires warpNew != 0.0
  {
    today - (warpPrev / warpNew) * (today - jtStart)
  }

  /** Rebasing keeps the displayed time: warpNew * (today - new start) equals
      warpPrev * (today - old start). */
  lemma RebasedKeepsTime(warpPrev: real, warpNew: real, today: real, jtStart: real, jtMin: real)
    requires warpNew != 0.0
    ensures DisplayTime(warpNew, today, Rebased(warpPrev, warpNew, today, jtStart), jtMin)
         == DisplayTime(warpPrev, today, jtStart, jtMin)
  {
    var k := warpPrev / warpNew;
    assert warpNew * k == warpPrev;
    assert today - Rebased(warpPrev, warpNew, today, jtStart) == k * (today - jtStart);
    assert warpNew * (k * (today - jtStart)) == (warpNew * k) * (today - jtStart);
  }

  /** The slider position for a time: `Math.floor(10000 * (JT - JTmin) / (JTmax - JTmin))`. */
  function SliderValue(jt: real, jtMin: real, jtMax: real): int
    requires jtMin < jtMax
  {
    (SliderMax as real * (jt - jtMin) / (jtMax - jtMin)).Floor
  }

  /** The time a slider position stands for: `JTmin + (JTmax - JTmin) * value / 10000`. */
  function SliderTime(value: int, jtMin: real, jtMax: real): real
  {
    jtMin + (jtMax - jtMin) * value as real / SliderMax as real
  }

  /** Inside the window the slider position is in range, and the time it stands for is
      at most one slider step before the time. */
  lemma SliderRoundTrip(jt: real, jtMin: real, jtMax: real)
    requires jtMin < jtMax
    ensures jtMin <= jt <= jtMax ==> 0 <= SliderValue(jt, jtMin, jtMax) <= SliderMax
    ensures SliderTime(SliderValue(jt, jtMin, jtMax), jtMin, jtMax) <= jt
    ensures jt < SliderTime(SliderValue(jt, jtMin, jtMax), jtMin, jtMax) + (jtMax - jtMin) / SliderMax as real
  {
    var d := jtMax - jtMin;
    var a := jt - jtMin;
    var x := 10000.0 * a / d;
    var v := SliderValue(jt, jtMin, jtMax);
    assert v as real <= x < v as real + 1.0;
    if jtMin <= jt <= jtMax {
      ScaledFraction(a, d);
    }
    FloorBounds(a, d, v as real);
  }

  /** From `v <= 10000 a / d < v + 1` to `d v / 10000 <= a < d v / 10000 + d / 10000`. */
  lemma FloorBounds(a: real, d: real, v: real)
    requires d > 0.0
    requires v <= 10000.0 * a / d < v + 1.0
    ensures d * v / 10000.0 <= a < d * v / 10000.0 + d / 10000.0
  {
    var x := 10000.0 * a / d;
    assert x * d == 10000.0 * a;
    MulMonotone(v, x, d);
    MulStrict(x, v + 1.0, d);
    assert (v + 1.0) * d == d * v + d;
  }

  lemma MulMonotone(p: real, q: real, d: real)
    requires p <= q && d > 0.0
    ensures p * d <= q * d
  {
    assert q * d - p * d == (q - p) * d;
  }

  lemma MulStrict(p: real, q: real, d: real)
    requires p < q && d > 0.0
    ensures p * d < q * d
  {
    assert q * d - p * d == (q - p) * d;
  }

  lemma ScaledFraction(a: real, d: real)
    requires 0.0 <= a <= d && d > 0.0
    ensures 0.0 <= 10000.0 * a / d <= 10000.0
  {
    assert a / d <= 1.0;
    assert 10000.0 * a / d == 10000.0 * (a / d);
  }

  /** `JTstart` after a slider movement: the start at which the displayed time is the
      time of the slider position. */
  function SliderStart(value: int, warp: real, today: real, jtMin: real, jtMax: real): real
    requires warp != 0.0
  {
    today - (SliderTime(value, jtMin, jtMax) - jtMin) / warp
  }

  /** After the slider moves, the displayed time at the same wall-clock time is the
      time of the slider position. */
  lemma SliderStartShowsPosition(value: int, warp: real, today: real, jtMin: real, jtMax: real)
    requires warp != 0.0
    ensures DisplayTime(warp, today, SliderStart(value, warp, today, jtMin, jtMax), jtMin)
         == SliderTime(value, jtMin, jtMax)
  {
    var a := SliderTime(value, jtMin, jtMax) - jtMin;
    assert warp * (a / warp) == a;
  }

  /** After a reset the displayed time is the start of the window. */
  lemma ResetShowsStart(warp: real, today: real, jtMin: real)
    ensures DisplayTime(warp, today, today, jtMin) == jtMin
  {
  }

  /** The globals of app.js that the animation loop and the buttons update. */
  class Viewer {
    /** `listEclipses.length`. */
    const count: nat
    var indEclipse: int
    var pendingLoad: Option<int>
    var jtStart: real
    var warpPrev: real
    /** `sliderTime`: the wall-clock time (ms) of the latest slider movement, if any. */
    var sliderTime: Option<real>
    var sliderStartValue: int
    /** `timeSlider.value`. */
    var slider: int
    var rotX: Option<real>
    var rotZ: Option<real>

    /** The eclipse shown and the one waiting to be loaded are eclipses of the list. */
    ghost predicate Valid()
      reads this
    {
      count > 0 && 0 <= indEclipse < count && (pendingLoad.Some? ==> 0 <= pendingLoad.value < count)
    }

    /** Startup: the globals as declared, then the load of the initial eclipse
        `indEclipse`, whose contacts are `contacts` and which reads the clock as
        `loadToday`; its tail restarts the animation and aims the camera at the
        first penumbral contact, replacing the declared rotation (-90, 0) degrees. */
    constructor(count: nat, indEclipse: int, contacts: ContactPoints, loadToday: real, warp: real)
      requires 0 <= indEclipse < count
      ensures Valid()
      ensures this.count == count && this.indEclipse == indEclipse && pendingLoad.None?
      ensures jtStart == loadToday && warpPrev == warp && sliderTime.None?
      ensures slider == 0 && sliderStartValue == 0
      ensures rotZ == RotZOf(AimAt(contacts.firstPenumbra.place))
      ensures rotX == RotXOf(AimAt(contacts.firstPenumbra.place))
    {
      this.count := count;
      this.indEclipse := indEclipse;
      pendingLoad := None;
      warpPrev := warp;
      sliderTime := None;
      sliderStartValue := 0;
      slider := 0;
      var aim := AimAt(contacts.firstPenumbra.place);
      rotZ := RotZOf(aim);
      rotX := RotXOf(aim);
      jtStart := loadToday;
    }

    /** `nextButton.onclick`: the next eclipse, wrapping to the first. */
    method Next()
      requires Valid()
      modifies this`pendingLoad
      ensures Valid()
      ensures pendingLoad == Some((indEclipse + 1) % count)
      ensures indEclipse + 1 < count ==> pendingLoad == Some(indEclipse + 1)
      ensures indEclipse == count - 1 ==> pendingLoad == Some(0)
    {
      pendingLoad := Some((indEclipse + 1) % count);
    }

    /** `prevButton.onclick`: the previous eclipse, wrapping to the last. */
    method Prev()
      requires Valid()
      modifies this`pendingLoad
      ensures Valid()
      ensures indEclipse > 0 ==> pendingLoad == Some(indEclipse - 1)
      ensures indEclipse == 0 ==> pendingLoad == Some(count - 1)
    {
      var p := indEclipse - 1;
      if p < 0 {
        p := count - 1;
      }
      pendingLoad := Some(p);
    }

    /** The autocomplete selection: the eclipse the name table gives for a name. */
    method Select(eclipseInds: map<string, nat>, selection: string)
      requires Valid()
      requires selection in eclipseInds && eclipseInds[selection] < count
      modifies this`pendingLoad
      ensures Valid()
      ensures pendingLoad == Some(eclipseInds[selection] as int)
    {
      pendingLoad := Some(eclipseInds[selection]);
    }

    /** The start of `drawScene`: a pending eclipse becomes the current one. Its
        `loadEclipse` call ends by restarting the animation at the wall-clock time
        `loadToday` and aiming the camera at the first penumbral contact of the new
        eclipse, whose contacts are `contacts`. */
    method TakePending(contacts: ContactPoints, loadToday: real)
      requires Valid()
      modifies this`indEclipse, this`pendingLoad, this`jtStart, this`rotX, this`rotZ
      ensures Valid()
      ensures pendingLoad.None?
      ensures indEclipse == if old(pendingLoad).Some? then old(pendingLoad).value else old(indEclipse)
      ensures jtStart == if old(pendingLoad).Some? then loadToday else old(jtStart)
      ensures rotZ == if old(pendingLoad).Some? then RotZOf(AimAt(contacts.firstPenumbra.place)) else old(rotZ)
      ensures rotX == if old(pendingLoad).Some? then RotXOf(AimAt(contacts.firstPenumbra.place)) else old(rotX)
    {
      if pendingLoad.Some? {
        indEclipse := pendingLoad.value;
        pendingLoad := None;
        var aim := AimAt(contacts.firstPenumbra.place);
        rotZ := RotZOf(aim);
        rotX := RotXOf(aim);
        jtStart := loadToday;
      }
    }

    /** The slider's `input` listener, which runs once the slider holds its new
        `value`: the first movement of a gesture records its wall-clock time and
        that value. */
    method SliderInput(value: int, now: real)
      modifies this`sliderTime, this`sliderStartValue, this`slider
      ensures slider == value
      ensures old(sliderTime).Some? ==> sliderTime == old(sliderTime) && sliderStartValue == old(sliderStartValue)
      ensures old(sliderTime).None? ==> sliderTime == Some(now) && sliderStartValue == value
    {
      slider := value;
      if sliderTime.None? {
        sliderTime := Some(now);
        sliderStartValue := slider;
      }
    }

    /** The warp step of `drawScene`: a changed warp factor moves `JTstart` so that
        the displayed time is kept. */
    method UpdateWarp(setting: real, today: real, jtMin: real) returns (warpNew: real)
      modifies this`jtStart, this`warpPrev
      ensures warpNew == EffectiveWarp(setting) && warpPrev == warpNew
      ensures jtStart == if old(warpPrev) != warpNew then Rebased(old(warpPrev), warpNew, today, old(jtStart))
                         else old(jtStart)
      ensures DisplayTime(warpNew, today, jtStart, jtMin) == DisplayTime(old(warpPrev), today, old(jtStart), jtMin)
    {
      warpNew := EffectiveWarp(setting);
      if warpPrev != warpNew {
        RebasedKeepsTime(warpPrev, warpNew, today, jtStart, jtMin);
        jtStart := today - (warpPrev / warpNew) * (today - jtStart);
      }
      warpPrev := warpNew;
    }

    /** The slider step of `drawScene` at the displayed time `jt`: without a slider
        gesture the slider follows the time; a gesture older than a second ends;
        otherwise `JTstart` moves so that the slider position becomes the time. */
    method UpdateSlider(jt: real, warp: real, today: real, now: real, jtMin: real, jtMax: real)
      requires warp != 0.0 && jtMin < jtMax
      modifies this`slider, this`sliderTime, this`jtStart
      ensures old(sliderTime).None? ==> slider == SliderValue(jt, jtMin, jtMax)
                                         && sliderTime.None? && jtStart == old(jtStart)
      ensures old(sliderTime).Some? && now - old(sliderTime).value > SliderHold ==>
                sliderTime.None? && slider == old(slider) && jtStart == old(jtStart)
      ensures old(sliderTime).Some? && now - old(sliderTime).value <= SliderHold ==>
                sliderTime == old(sliderTime) && slider == old(slider)
                && jtStart == SliderStart(slider, warp, today, jtMin, jtMax)
                && DisplayTime(warp, today, jtStart, jtMin) == SliderTime(slider, jtMin, jtMax)
    {
      if sliderTime.None? {
        slider := (10000.0 * (jt - jtMin) / (jtMax - jtMin)).Floor;
      } else if now - sliderTime.value > SliderHold {
        sliderTime := None;
      } else {
        var jtTarget := jtMin + (jtMax - jtMin) * slider as real / 10000.0;
        jtStart := today - (jtTarget - jtMin) / warp;
        SliderStartShowsPosition(slider, warp, today, jtMin, jtMax);
      }
    }

    /** The reset step of `drawScene`: a displayed time outside the window, with no
        slider gesture, restarts the animation at the start of the window. */
    method ResetOutside(jt: real, today: real, jtMin: real, jtMax: real)
      modifies this`jtStart
      ensures sliderTime.None? && (jt > jtMax || jt < jtMin) ==> jtStart == today
      ensures !(sliderTime.None? && (jt > jtMax || jt < jtMin)) ==> jtStart == old(jtStart)
    {
      if jt > jtMax && sliderTime.None? {
        jtStart := today;
      }
      if jt < jtMin && sliderTime.None? {
        jtStart := today;
      }
    }

    /** The camera step of `drawScene`: the locked rotations follow the target. */
    method FollowTarget(target: Option<Rotation>, lockLon: bool, lockLat: bool)
      modifies this`rotX, this`rotZ
      ensures rotZ == if lockLon then RotZOf(target) else old(rotZ)
      ensures rotX == if lockLat then RotXOf(target) else old(rotX)
    {
      if lockLon {
        rotZ := RotZOf(target);
      }
      if lockLat {
        rotX := RotXOf(target);
      }
    }

    /** The time and camera part of one `drawScene` frame at wall-clock `today`
        (ticks) and `now` (ms), with the GUI's warp setting and locks and the sub-axis
        point `axis` at the displayed time. `state` is the eclipse shown in this
        frame: the newly loaded one when a load is pending, whose `loadEclipse`
        read the clock as `loadToday`. It returns the displayed time, which a warp
        change leaves where the previous warp had it. */
    method Frame(state: EclipseState, setting: real, today: real, now: real, loadToday: real,
                 axis: Option<Geo>, lockLon: bool, lockLat: bool) returns (jt: real)
      requires Valid() && state.jtMin < state.jtMax
      modifies this`indEclipse, this`pendingLoad, this`jtStart, this`warpPrev
      modifies this`slider, this`sliderTime, this`rotX, this`rotZ, state`contacts
      ensures Valid()
      ensures pendingLoad.None?
      ensures indEclipse == if old(pendingLoad).Some? then old(pendingLoad).value else old(indEclipse)
      ensures jt == DisplayTime(old(warpPrev), today, if old(pendingLoad).Some? then loadToday else old(jtStart),
                                state.jtMin)
      ensures old(pendingLoad).Some? && loadToday == today ==> jt == state.jtMin
      ensures warpPrev == EffectiveWarp(setting)
      ensures state.contacts == Unwrapped(old(state.contacts), jt)
      ensures rotZ == if lockLon then RotZOf(TargetOf(old(state.contacts), jt, axis))
                      else if old(pendingLoad).Some? then RotZOf(AimAt(old(state.contacts).firstPenumbra.place))
                      else old(rotZ)
      ensures rotX == if lockLat then RotXOf(TargetOf(old(state.contacts), jt, axis))
                      else if old(pendingLoad).Some? then RotXOf(AimAt(old(state.contacts).firstPenumbra.place))
                      else old(rotX)
    {
      TakePending(state.contacts, loadToday);
      var warpNew := UpdateWarp(setting, today, state.jtMin);
      jt := warpNew * (today - jtStart) + state.jtMin;
      UpdateSlider(jt, warpNew, today, now, state.jtMin, state.jtMax);
      ResetOutside(jt, today, state.jtMin, state.jtMax);
      var target := state.ComputeTarget(jt, axis);
      FollowTarget(target, lockLon, lockLat);
    }
  }
}
