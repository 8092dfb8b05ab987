/** The caption stage of the engine (visualization/Captions.js `createMagCaptions`):
    time captions at the lines of maximum eclipse, and magnitude captions along the
    longest of them where it crosses one of the caption levels. */
module Captions {
  import opened Common
  import opened Eclipse
  import Format

  /** A text placed at a geodetic position. */
  datatype Caption = Caption(lat: real, lon: real, text: string)

  const Levels: seq<real> := [0.2, 0.4, 0.6, 0.8]
  /** `level.toString()` of each of the `Levels`. */
  const LevelTexts: seq<string> := ["0.2", "0.4", "0.6", "0.8"]
  const ZeroText: string := "0.0"

  /** The library calls of the caption stage. */
  datatype CaptionLib = CaptionLib(
    /** `timeGregorian(Number(key))`. */
    calendar: real -> Format.Greg,
    /** `eclipseMagnitude` seen from a point at the time of a contour key. The
        source hands the Sun and Moon computations the key string itself, without
        the `Number` conversion the time captions use; this field receives the key
        as the source passes it. */
    magnitude: (real, Geo) -> real)

  /** What `createMagCaptions` returns. */
  datatype CaptionSet = CaptionSet(maxCaptions: seq<Caption>, magCaptions: seq<Caption>)

  /** The TypeErrors `createMagCaptions` throws: there is no contour at all, or the
      longest contour has no segment (`lines[0]` is undefined). */
  datatype CaptionError = NoContours | EmptyLongest

  /** The state of the longest-contour search: `indLongest` and `numLongest`. */
  datatype Longest = Longest(index: nat, count: nat)

  /** The search `if (lines.length > numLongest)` over the contours `cs`, from
      (0, 0): the first contour with the most segments, or index 0 when all are empty. */
  function LongestOf(cs: seq<Contour>): (r: Longest)
    ensures r.index == 0 || r.index < |cs|
    ensures forall j :: 0 <= j < |cs| ==> |cs[j].lines| <= r.count
    ensures forall j :: 0 <= j < r.index ==> |cs[j].lines| < r.count
    ensures r.count == 0 ==> r.index == 0
    ensures r.count > 0 ==> r.index < |cs| && |cs[r.index].lines| == r.count
  {
    if cs == [] then Longest(0, 0)
    else
      var prev := LongestOf(cs[..|cs| - 1]);
      var n := |cs[|cs| - 1].lines|;
      if n > prev.count then Longest(|cs| - 1, n) else prev
  }

  /** The contour has more than one segment and gets a time caption. */
  predicate Many(c: Contour)
  {
    |c.lines| > 1
  }

  /** The time caption of a contour of maximum eclipse: `HH:MM` of its time, three
      degrees south and two degrees west of its first point. */
  function MaxCaption(lib: CaptionLib, c: Contour): (r: Caption)
    requires |c.lines| > 0
    ensures r.lat + 3.0 == c.lines[0].start.lat && r.lon + 2.0 == c.lines[0].start.lon
  {
    Caption(c.lines[0].start.lat - 3.0, c.lines[0].start.lon - 2.0,
            Format.HourMinute(lib.calendar(c.key)))
  }

  /** The time captions of the contours `cs`, in key order. */
  function MaxCaptionsOf(lib: CaptionLib, cs: seq<Contour>): seq<Caption>
  {
    if cs == [] then []
    else
      var c := cs[|cs| - 1];
      MaxCaptionsOf(lib, cs[..|cs| - 1]) + (if Many(c) then [MaxCaption(lib, c)] else [])
  }

  /** There is one time caption for each contour with more than one segment, in key
      order, and it is that contour's caption. */
  lemma {:induction false} MaxCaptionsExact(lib: CaptionLib, cs: seq<Contour>)
    ensures |MaxCaptionsOf(lib, cs)| == |Filter(Many, cs)|
    ensures forall k :: 0 <= k < |Filter(Many, cs)| ==>
              Many(Filter(Many, cs)[k]) && MaxCaptionsOf(lib, cs)[k] == MaxCaption(lib, Filter(Many, cs)[k])
    decreases |cs|
  {
    if cs != [] {
      var front, c := cs[..|cs| - 1], cs[|cs| - 1];
      MaxCaptionsExact(lib, front);
      assert cs == front + [c];
      FilterSnoc(Many, front, c);
    }
  }

  /** `Math.sign(valueStart - level) != Math.sign(valueEnd - level)`. */
  predicate Crosses(vs: real, ve: real, level: real)
  {
    Sign(vs - level) != Sign(ve - level)
  }

  /** A segment crosses a level unless both ends lie strictly on the same side of it
      or both lie on it. */
  lemma CrossesExact(vs: real, ve: real, level: real)
    ensures Crosses(vs, ve, level) <==>
              !((vs < level && ve < level) || (vs > level && ve > level) || (vs == level && ve == level))
  {
  }

  /** Where the captions of a segment go: half a degree north and one degree east of
      its start. */
  function CaptionAt(g: Geo, text: string): Caption
  {
    Caption(g.lat + 0.5, g.lon + 1.0, text)
  }

  /** The captions of one segment with end magnitudes `vs` and `ve`, for the first `m`
      caption levels. */
  function LevelCaptions(g: Geo, vs: real, ve: real, m: nat): seq<Caption>
    requires m <= |Levels|
  {
    if m == 0 then []
    else
      LevelCaptions(g, vs, ve, m - 1)
        + (if Crosses(vs, ve, Levels[m - 1]) then [CaptionAt(g, LevelTexts[m - 1])] else [])
  }

  /** The indices of the levels a segment crosses. */
  ghost function CrossedLevels(vs: real, ve: real, m: nat): set<nat>
    requires m <= |Levels|
  {
    set j: nat | j < m && Crosses(vs, ve, Levels[j])
  }

  /** One more level adds its index when the segment crosses it. */
  lemma CrossedLevelsSnoc(vs: real, ve: real, m: nat)
    requires m < |Levels|
    ensures m !in CrossedLevels(vs, ve, m)
    ensures CrossedLevels(vs, ve, m + 1) ==
              CrossedLevels(vs, ve, m) + (if Crosses(vs, ve, Levels[m]) then {m} else {})
  {
  }

  /** A segment gets one caption per level it crosses. */
  lemma {:induction false} LevelCaptionsCount(g: Geo, vs: real, ve: real, m: nat)
    requires m <= |Levels|
    ensures |LevelCaptions(g, vs, ve, m)| == |CrossedLevels(vs, ve, m)|
    decreases m
  {
    if m > 0 {
      LevelCaptionsCount(g, vs, ve, m - 1);
      CrossedLevelsSnoc(vs, ve, m - 1);
    }
  }

  /** The level captions of a segment sit at its start and carry level texts. */
  lemma {:induction false} LevelCaptionsPlaced(g: Geo, vs: real, ve: real, m: nat)
    requires m <= |Levels|
    ensures forall c :: c in LevelCaptions(g, vs, ve, m) ==>
              c.lat == g.lat + 0.5 && c.lon == g.lon + 1.0 && c.text in LevelTexts[..m]
    decreases m
  {
    if m > 0 {
      LevelCaptionsPlaced(g, vs, ve, m - 1);
      assert LevelTexts[..m] == LevelTexts[..m - 1] + [LevelTexts[m - 1]];
    }
  }

  /** No two caption levels have the same text. */
  lemma LevelTextsDistinct(i: nat, j: nat)
    requires i < j < |LevelTexts|
    ensures LevelTexts[i] != LevelTexts[j]
    ensures LevelTexts[j] !in LevelTexts[..i + 1]
  {
    assert forall k :: 0 <= k < |LevelTexts| ==> |LevelTexts[k]| == 3;
    assert LevelTexts[0][2] == '2' && LevelTexts[1][2] == '4';
    assert LevelTexts[2][2] == '6' && LevelTexts[3][2] == '8';
  }

  /** A segment carries the caption of a level exactly when it crosses that level. */
  lemma {:induction false} LevelCaptionsPresent(g: Geo, vs: real, ve: real, m: nat, j: nat)
    requires j < m <= |Levels|
    ensures CaptionAt(g, LevelTexts[j]) in LevelCaptions(g, vs, ve, m) <==> Crosses(vs, ve, Levels[j])
    decreases m
  {
    var prev := LevelCaptions(g, vs, ve, m - 1);
    if j == m - 1 {
      LevelCaptionsPlaced(g, vs, ve, m - 1);
      if j > 0 {
        LevelTextsDistinct(j - 1, j);
      }
      assert CaptionAt(g, LevelTexts[j]) !in prev;
    } else {
      LevelCaptionsPresent(g, vs, ve, m - 1, j);
      LevelTextsDistinct(j, m - 1);
    }
  }

  /** The level captions of a segment of the contour at time `key`. */
  function SegmentCaptions(lib: CaptionLib, key: real, s: Segment): seq<Caption>
  {
    LevelCaptions(s.start, lib.magnitude(key, s.start), lib.magnitude(key, s.end), |Levels|)
  }

  /** The level captions of the segments `lines`, segment by segment. */
  function LineCaptions(lib: CaptionLib, key: real, lines: seq<Segment>): seq<Caption>
  {
    if lines == [] then []
    else LineCaptions(lib, key, lines[..|lines| - 1]) + SegmentCaptions(lib, key, lines[|lines| - 1])
  }

  /** The number of (segment, level) pairs of `lines` where the segment crosses the level. */
  ghost function CrossingCount(lib: CaptionLib, key: real, lines: seq<Segment>): nat
  {
    if lines == [] then 0
    else
      var s := lines[|lines| - 1];
      CrossingCount(lib, key, lines[..|lines| - 1])
        + |CrossedLevels(lib.magnitude(key, s.start), lib.magnitude(key, s.end), |Levels|)|
  }

  /** One level caption per crossing. */
  lemma {:induction false} LineCaptionsCount(lib: CaptionLib, key: real, lines: seq<Segment>)
    ensures |LineCaptions(lib, key, lines)| == CrossingCount(lib, key, lines)
    decreases |lines|
  {
    if lines != [] {
      var s := lines[|lines| - 1];
      LineCaptionsCount(lib, key, lines[..|lines| - 1]);
      LevelCaptionsCount(s.start, lib.magnitude(key, s.start), lib.magnitude(key, s.end), |Levels|);
    }
  }

  /** The magnitude captions of the longest contour `c`: "0.0" at its first and at its
      last point, then the level captions of its segments. */
  function MagCaptionsOf(lib: CaptionLib, c: Contour): seq<Caption>
    requires |c.lines| > 0
  {
    [CaptionAt(c.lines[0].start, ZeroText), CaptionAt(c.lines[|c.lines| - 1].end, ZeroText)]
      + LineCaptions(lib, c.key, c.lines)
  }

  /** The magnitude captions open with the two "0.0" captions at the ends of the
      contour, followed by one caption per level crossing. */
  lemma MagCaptionsShape(lib: CaptionLib, c: Contour)
    requires |c.lines| > 0
    ensures MagCaptionsOf(lib, c)[0] == CaptionAt(c.lines[0].start, ZeroText)
    ensures MagCaptionsOf(lib, c)[1] == CaptionAt(c.lines[|c.lines| - 1].end, ZeroText)
    ensures |MagCaptionsOf(lib, c)| == 2 + CrossingCount(lib, c.key, c.lines)
  {
    var ends := [CaptionAt(c.lines[0].start, ZeroText), CaptionAt(c.lines[|c.lines| - 1].end, ZeroText)];
    var rest := LineCaptions(lib, c.key, c.lines);
    assert MagCaptionsOf(lib, c) == ends + rest;
    assert (ends + rest)[1] == ends[1];
    LineCaptionsCount(lib, c.key, c.lines);
  }

  /** The result of `createMagCaptions` on the derivative contours `cs`. */
  function CaptionsOf(lib: CaptionLib, cs: seq<Contour>): Result<CaptionSet, CaptionError>
  {
    if cs == [] then Failure(NoContours)
    else
      var c := cs[LongestOf(cs).index];
      if c.lines == [] then Failure(EmptyLongest)
      else Success(CaptionSet(MaxCaptionsOf(lib, cs), MagCaptionsOf(lib, c)))
  }

  /** The longest contour has no segment exactly when no contour has one. */
  lemma LongestEmpty(cs: seq<Contour>)
    requires cs != []
    ensures cs[LongestOf(cs).index].lines == [] <==> forall j :: 0 <= j < |cs| ==> cs[j].lines == []
  {
    var l := LongestOf(cs);
    if cs[l.index].lines == [] {
      assert l.count == 0;
      forall j | 0 <= j < |cs| ensures cs[j].lines == [] {
        assert |cs[j].lines| <= 0;
      }
    }
  }

  /** `createMagCaptions` fails exactly when no contour has a segment; otherwise the
      magnitude captions belong to the first contour with the most segments and number
      two plus its crossings. */
  lemma CaptionsOutcome(lib: CaptionLib, cs: seq<Contour>)
    ensures CaptionsOf(lib, cs).Failure? <==> forall j :: 0 <= j < |cs| ==> cs[j].lines == []
    ensures CaptionsOf(lib, cs).Success? ==>
              var c := cs[LongestOf(cs).index];
              (forall j :: 0 <= j < |cs| ==> |cs[j].lines| <= |c.lines|)
              && (forall j :: 0 <= j < LongestOf(cs).index ==> |cs[j].lines| < |c.lines|)
              && CaptionsOf(lib, cs).value.magCaptions[0] == CaptionAt(c.lines[0].start, ZeroText)
              && CaptionsOf(lib, cs).value.magCaptions[1] == CaptionAt(c.lines[|c.lines| - 1].end, ZeroText)
              && |CaptionsOf(lib, cs).value.magCaptions| == 2 + CrossingCount(lib, c.key, c.lines)
  {
    if cs != [] {
      LongestEmpty(cs);
      var l := LongestOf(cs);
      var c := cs[l.index];
      if c.lines != [] {
        assert l.count == |c.lines|;
        MagCaptionsShape(lib, c);
        assert CaptionsOf(lib, cs).value.magCaptions == MagCaptionsOf(lib, c);
      }
    }
  }

  /** `createMagCaptions`. */
  method CreateMagCaptions(lib: CaptionLib, derContours: seq<Contour>)
    returns (r: Result<CaptionSet, CaptionError>)
    ensures r == CaptionsOf(lib, derContours)
  {
    var indLongest, maxCaptionList := ScanContours(lib, derContours);
    if |derContours| == 0 {
      return Failure(NoContours);
    }
    var longest := derContours[indLongest];
    if |longest.lines| == 0 {
      return Failure(EmptyLongest);
    }
    var magCaptionList := MagCaptions(lib, longest);
    r := Success(CaptionSet(maxCaptionList, magCaptionList));
  }

  /** The second half of `createMagCaptions`, on the longest contour. */
  method MagCaptions(lib: CaptionLib, longest: Contour) returns (magCaptionList: seq<Caption>)
    requires |longest.lines| > 0
    ensures magCaptionList == MagCaptionsOf(lib, longest)
  {
    var lines := longest.lines;
    magCaptionList := [CaptionAt(lines[0].start, ZeroText), CaptionAt(lines[|lines| - 1].end, ZeroText)];
    ghost var zeros := magCaptionList;
    var indLine := 0;
    while indLine < |lines|
      invariant 0 <= indLine <= |lines|
      invariant magCaptionList == zeros + LineCaptions(lib, longest.key, lines[..indLine])
    {
      var valueStart := lib.magnitude(longest.key, lines[indLine].start);
      var valueEnd := lib.magnitude(longest.key, lines[indLine].end);
      magCaptionList := AddLevelCaptions(magCaptionList, lines[indLine].start, valueStart, valueEnd);
      assert lines[..indLine + 1][..indLine] == lines[..indLine];
      indLine := indLine + 1;
    }
    assert lines[..indLine] == lines;
  }

  /** One more contour extends both searches by that contour alone. */
  lemma ScanSnoc(lib: CaptionLib, cs: seq<Contour>, c: Contour)
    ensures LongestOf(cs + [c]) ==
      (if |c.lines| > LongestOf(cs).count then Longest(|cs|, |c.lines|) else LongestOf(cs))
    ensures MaxCaptionsOf(lib, cs + [c]) ==
      MaxCaptionsOf(lib, cs) + (if Many(c) then [MaxCaption(lib, c)] else [])
  {
    assert (cs + [c])[..|cs|] == cs;
  }

  /** The first loop of `createMagCaptions`: the longest-contour search and the time
      captions. */
  method ScanContours(lib: CaptionLib, derContours: seq<Contour>)
    returns (indLongest: nat, maxCaptionList: seq<Caption>)
    ensures indLongest == LongestOf(derContours).index
    ensures maxCaptionList == MaxCaptionsOf(lib, derContours)
  {
    maxCaptionList := [];
    indLongest := 0;
    var numLongest: nat := 0;
    var indValues := 0;
    while indValues < |derContours|
      invariant 0 <= indValues <= |derContours|
      invariant Longest(indLongest, numLongest) == LongestOf(derContours[..indValues])
      invariant maxCaptionList == MaxCaptionsOf(lib, derContours[..indValues])
    {
      var c := derContours[indValues];
      PrefixSnoc(derContours, indValues);
      ScanSnoc(lib, derContours[..indValues], c);
      if |c.lines| > numLongest {
        numLongest := |c.lines|;
        indLongest := indValues;
      }
      if |c.lines| > 1 {
        maxCaptionList := maxCaptionList + [MaxCaption(lib, c)];
      }
      indValues := indValues + 1;
    }
    assert derContours[..indValues] == derContours;
  }

  /** The level loop of `createMagCaptions` for one segment starting at `pointStart`. */
  method AddLevelCaptions(captions: seq<Caption>, pointStart: Geo, valueStart: real, valueEnd: real)
    returns (out: seq<Caption>)
    ensures out == captions + LevelCaptions(pointStart, valueStart, valueEnd, |Levels|)
  {
    out := captions;
    var indLevel := 0;
    while indLevel < |Levels|
      invariant 0 <= indLevel <= |Levels|
      invariant out == captions + LevelCaptions(pointStart, valueStart, valueEnd, indLevel)
    {
      var level := Levels[indLevel];
      if Sign(valueStart - level) != Sign(valueEnd - level) {
        out := out + [CaptionAt(pointStart, LevelTexts[indLevel])];
      }
      indLevel := indLevel + 1;
    }
  }
}
