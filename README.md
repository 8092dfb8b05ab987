# Bessel3d control logic in Dafny

Bessel3d is a browser viewer for solar eclipses. It draws the Earth and the 1900–2100 eclipses
as a WebGL scene: the shadow contours, the central line, the umbra path, the rise/set
and maximum curves, and the four contact points. It uses the ephemeris library
`orbitsjs` for all astronomy. This project models the discrete logic that sits around
those library calls:

- the contact-point searches, line sampling and segment assembly of `visualization/Lines.js`;
- the contour flattening and the derivative-time loop of `visualization/Contours.js`;
- the caption placement of `visualization/Captions.js`;
- in `app.js`, the camera target, the timestamp text, the eclipse-name table, the
  next/previous navigation and the time warp, slider and reset arithmetic of the
  animation frame.

Modelling decisions:

- **Time is an integer tick of 0.1 s** (`Common.Tick`; `Second` = 10, `Minute` = 600,
  `HalfHour` = 18000, `Hour` = 36000; tick 0 lies on an hour boundary). This makes the
  bracket arithmetic of the two-phase searches exact. A `for (JT = a; JT < b; JT += step)`
  loop is `Common.ScanTicks(a, b, step)`; an inclusive `<=` loop is `ScanTicks(a, b + 1, step)`.
  In `app.js` the displayed Julian time is a `real` number of ticks, because it comes from
  the wall clock through affine maps.
- **`orbitsjs` is a value, not code.** `Eclipse.Ephemeris`, `Contours.ContourLib` and
  `Captions.CaptionLib` are datatypes of function-valued fields. They stand for the
  library calls: Besselian `zeta`, rise/set points, the umbra grid, the maximum-line
  probes, magnitude grids, the contour extractor, the calendar conversion and the
  coordinate transforms. Every property is proved for every such library (well-formed,
  `Eclipse.WellFormed`, where the umbra line needs it).
- **JavaScript NaN and `undefined` are `Option.None`.** A property access that throws
  a `TypeError` is a `Result.Failure`. There are two: `points[1]` of a one-point rise/set
  list, and `lines[0]` when every derivative contour is empty.
- **State that the source mutates is a class.** `App.EclipseState` holds the contact
  points that `computeTarget` rewrites. `App.Viewer` holds the module globals that
  `drawScene` and the button and slider handlers update (`indEclipse`, `pendingLoad`,
  `JTstart`, `warpFactorPrev`, `sliderTime`, `sliderStartValue`, the slider value, and
  `rotX`/`rotZ`).
- **Each loop is a method proved against a specification function**, and the properties
  the source promises are lemmas about that function.

Modules: `Common` (ticks, scans, first hits, filter/map), `Eclipse` (the library interface
and the records), `Contacts`, `Lines`, `MaxLine`, `RiseSet` (all `Lines.js`), `Contours`,
`Captions`, `Format` (number and timestamp text) and `App`.

## Model

| member | source | states |
|---|---|---|
| Common.ScanTicks | visualization/Lines.js:41 | the ticks of a stepped loop: empty iff the start does not precede the stop; starts at the start, every tick precedes the stop, and the next step would not |
| Common.ScanTicksNext | visualization/Lines.js:41 | consecutive loop ticks differ by exactly one step |
| Common.ScanTicksAt | visualization/Contours.js:105 | the i-th loop tick is start + i·step |
| Common.ScanTicksOrdered | visualization/Lines.js:242-250 | a later loop tick lies strictly further in the scan direction |
| Common.ScanTicksIncreasing | visualization/Lines.js:41 | a forward loop visits ticks in strictly increasing order |
| Common.ScanTicksReaches | visualization/Lines.js:242-250 | start + n·step is visited by a loop that stops one tick past it |
| Common.FirstHit | visualization/Lines.js:242-250 | a loop that breaks at its first hit returns a tick of the scan that satisfies the condition, or none when no tick does |
| Common.FirstHitOnScan | visualization/Lines.js:242-250 | the returned tick is the first hit: no earlier tick of the scan satisfies the condition |
| Common.Filter | visualization/Lines.js:46-55 | keeping the elements that pass a test yields only passing elements of the input, and no more of them |
| Common.FilterKeeps | visualization/Lines.js:46-55 | every passing element of the input is kept |
| Common.FilterIncreasing | visualization/Lines.js:46-55 | filtering keeps increasing order |
| Common.FilterSnoc | visualization/Lines.js:46-55 | filtering one more element appends it exactly when it passes |
| Common.Map | visualization/Lines.js:53-54 | mapping keeps the length and transforms each element in place |
| Common.MapSnoc | visualization/Lines.js:53-54 | mapping one more element appends its image |
| Common.Sign | visualization/Captions.js:73 | `Math.sign` is 0, 1 or −1 exactly for zero, positive and negative arguments |
| Common.Lookup | visualization/Lines.js:207-210 | an array read is defined exactly for in-range indices and then gives that element (`undefined` otherwise) |
| Contacts.Scan | visualization/Lines.js:242-250 | the coarse `break` loop returns the first tick of the scan that meets the condition, or none |
| Contacts.FindContact | visualization/Lines.js:242-284 | the two-phase search returns the contact defined by `ContactOf` |
| Contacts.RefineContact | visualization/Lines.js:256-284 | the fine loop inside the bracket [coarse − step, coarse] returns the refined contact |
| Contacts.ComputeFirstLastContact | visualization/Lines.js:222-437 | the four contacts are the two-phase searches forward and backward, with the rise/set and the `zeta` conditions and the 1 s and 0.1 s fine steps |
| Contacts.FineTicksContainCoarse | visualization/Lines.js:256-260 | the fine bracket contains the coarse hit, so refinement always succeeds |
| Contacts.ContactOfComplete | visualization/Lines.js:242-284 | the contact is absent iff no coarse tick meets the condition; time and place are present together, and the place is the probe at that time |
| Contacts.RefinedIsFirstFineHit | visualization/Lines.js:256-284 | the refined time is the first fine hit and lies in the bracket between the previous coarse tick and the coarse hit |
| Contacts.ContactOfRefines | visualization/Lines.js:242-284 | a found contact is the first fine hit inside the bracket of the first coarse hit |
| Contacts.ContactsComplete | visualization/Lines.js:222-423 | each of the four contacts is absent iff its coarse scan (forward from JTmin, backward from JTmax) finds no tick with rise/set points, or with `zeta` defined; time and place are present together |
| Contacts.PartialEclipseHasNoUmbralContact | visualization/Lines.js:332-419 | with `zeta` undefined over the whole window, both umbral contacts stay NaN |
| Lines.ComputeCentralLine | visualization/Lines.js:35-58 | the loop returns `CentralLineOf` over the loop ticks |
| Lines.CentralLineIsMapFilter | visualization/Lines.js:41-55 | the central line is the scaled sub-axis point of exactly those ticks where `zeta` is defined, in loop order |
| Lines.CentralTicksExact | visualization/Lines.js:41-55 | the kept ticks are increasing and are exactly the loop ticks with `zeta` defined |
| Lines.CentralLinePoints | visualization/Lines.js:41-58 | the length is at most the number of steps; the k-th point is the k-th kept tick's sub-axis point times 0.001 |
| Lines.Pairs | visualization/Lines.js:197-201 | the pairing loop over the first m points gives 2m entries, p[j] then p[j+1] |
| Lines.ChainPairs | visualization/Lines.js:197-206 | the pairing loop returns the chain of its input |
| Lines.ChainSegments | visualization/Lines.js:496-505 | chaining n points gives [p0,p1,p1,p2,…] of length 2(n−1), or nothing for an empty list |
| Lines.ChainMembers | visualization/Lines.js:496-505 | every chained point is an input point |
| Lines.AdaptiveAdvance | visualization/Lines.js:102 | the adaptive step advances by at least one second when `zeta` ≥ 0 |
| Lines.AdaptiveTicks | visualization/Lines.js:94-108 | every sample time of the adaptive scan lies in the window and has `zeta` defined |
| Lines.AdaptiveScan | visualization/Lines.js:94-108 | the adaptive loop appends exactly the sample times `AdaptiveTicks` |
| Lines.ComputeUmbraTimes | visualization/Lines.js:84-114 | the time list is `UmbraTimes`: +2 s and +12 s after first umbral contact, the adaptive samples, then −22 s and −2 s before the last contact when it exists |
| Lines.AdaptiveTicksSpaced | visualization/Lines.js:102 | consecutive adaptive samples are at least one second apart |
| Lines.AdaptiveTicksStart | visualization/Lines.js:94-106 | the adaptive scan is empty iff no plain step finds `zeta` defined, and otherwise starts at the first such tick |
| Lines.RunExtremeSnoc | visualization/Lines.js:162-177 | one more grid cell replaces the running extreme exactly when it is non-zero and strictly better |
| Lines.RunExtremeDominates | visualization/Lines.js:162-177 | no non-zero cell beats the running extreme, and without a point the bound is still the initial one |
| Lines.RunExtremeIsFirstExtreme | visualization/Lines.js:150-182 | the extreme point is absent iff no non-zero cell beats the initial bound; otherwise it is the first row-major cell with the extreme distance (ties keep the earliest) |
| Lines.ScanRow | visualization/Lines.js:160-180 | the column loop over one grid row continues both running extremes over that row's cells |
| Lines.RunExtremeFindsFirst | visualization/Lines.js:150-182 | a found extreme point is the point of the first extreme cell, and its distance is the running bound |
| Lines.UmbraExtremes | visualization/Lines.js:150-182 | the nested grid loops return the running minimum and maximum over the row-major cells |
| Lines.CollectExtremes | visualization/Lines.js:116-192 | the per-time loop pushes each defined extreme point, in time order |
| Lines.ExtremePointsFromSamples | visualization/Lines.js:184-191 | at most one point per sample time, each the extreme of some sample time |
| Lines.Defined | visualization/Lines.js:199-205 | pushing the chain keeps every entry defined |
| Lines.ComputeUmbraLine | visualization/Lines.js:73-212 | the method returns `UmbraLineOf` |
| Lines.UmbraSegmentsChains | visualization/Lines.js:195-206 | the segments open with the chain of the minima, then the chain of the maxima, every entry defined |
| Lines.UmbraSegmentsShape | visualization/Lines.js:195-210 | the output is the chain of the minima, then the chain of the maxima, then four closing entries (first max, first min, last max, last min), each `undefined` when its list is empty |
| Lines.UmbraLineEmptyIffNoFirstContact | visualization/Lines.js:84-92 | the umbra line is `[]` exactly when first umbral contact is NaN |
| MaxLine.SideHitsSnoc | visualization/Lines.js:447-488 | one more time step appends exactly that step's hits |
| MaxLine.ProbeAngles | visualization/Lines.js:458-487 | the angle loop appends the step's rising hits to `lineRise` and its setting hits to `lineSet` |
| MaxLine.InsertByZ | visualization/Lines.js:490-491 | inserting into the sorted list adds exactly one element |
| MaxLine.SortByZ | visualization/Lines.js:490-491 | sorting keeps the length |
| MaxLine.InsertByZPermutes | visualization/Lines.js:490-491 | insertion adds exactly the new point to the multiset |
| MaxLine.InsertByZAbove | visualization/Lines.js:490-491 | insertion keeps a lower bound on z |
| MaxLine.InsertByZSorted | visualization/Lines.js:490-491 | insertion keeps the list sorted by z |
| MaxLine.SortByZCorrect | visualization/Lines.js:490-491 | the sort by the third component is ordered and a permutation |
| MaxLine.ComputeMax | visualization/Lines.js:439-507 | the method returns the set and rise chains of `MaxLinesOf` |
| MaxLine.AngleHitsExact | visualization/Lines.js:458-486 | a point is a hit of the angle loop iff some angle after the first has a sign change of the derivative, magnitude above 0.005, the right sun direction, and that point |
| MaxLine.SideHitsExact | visualization/Lines.js:447-488 | a point is collected iff it is such a hit at some tick and angle |
| MaxLine.SortedChainAscends | visualization/Lines.js:490-505 | the output is a permutation chained into 2(n−1) entries, and each segment goes up in z |
| RiseSet.TickSide | visualization/Lines.js:534-561 | a time step adds at most two points to each side list |
| RiseSet.SideListSnoc | visualization/Lines.js:526-562 | one more time step appends exactly that step's points to each side |
| RiseSet.PairUp | visualization/Lines.js:567-574 | the first m blocks of the pairing loop hold two entries per segment |
| RiseSet.PairUpAt | visualization/Lines.js:567-574 | segment k of the pairing joins point k to point k+2 |
| RiseSet.BlockCount | visualization/Lines.js:567 | the loop bound `length/2 − 1` gives the largest number of in-range blocks |
| RiseSet.JoinSide | visualization/Lines.js:567-578 | the joining loop and the four closing pushes return `Joined` |
| RiseSet.ClassifyTick | visualization/Lines.js:534-561 | both boundary points go to the start list when the sun is up an hour later, else to the end list |
| RiseSet.SplitSides | visualization/Lines.js:526-563 | the time loop returns `SidesOver` the loop ticks, failing at the first one-point tick |
| RiseSet.ComputeRiseSet | visualization/Lines.js:519-594 | the method returns `RiseSetOf` |
| RiseSet.PairUpSegments | visualization/Lines.js:567-574 | n points give 2(n−2) pair entries (s[k], s[k+2]) |
| RiseSet.SidesCount | visualization/Lines.js:534-561 | the two side lists together hold exactly two points per tick with boundary points |
| RiseSet.RiseSetFailsOnSinglePoint | visualization/Lines.js:536-537 | the computation fails iff some loop tick has exactly one boundary point, and then it fails at the first such tick |
| RiseSet.JoinedSegments | visualization/Lines.js:567-574 | the joined side opens with its segments, every entry defined |
| RiseSet.JoinedEnds | visualization/Lines.js:575-578 | the four closing entries are the first two and last two points of the side, `undefined` where the side is too short |
| RiseSet.JoinedShape | visualization/Lines.js:567-591 | a side of n points gives 2(n−2) pairs and four closing entries, defined exactly when the list has enough points |
| Contours.HourStart | visualization/Contours.js:16-18 | the start of the hour containing a tick: a multiple of an hour, at most the tick and less than an hour before it |
| Contours.LimitsRequest | visualization/Contours.js:16-23 | the grid request covers 10 h starting 5 h before the maximum's hour plus one second, over the whole globe, with the given resolutions |
| Contours.ComputeLimits | visualization/Contours.js:14-35 | the limits copy the grid bounds and return the given resolutions |
| Contours.Widened | visualization/Contours.js:83-84 | the region is 5° wider on every side |
| Contours.ContourGrid | visualization/Contours.js:81-84 | the grid covers 10 minutes more on each end and the widened region, with the given resolutions |
| Contours.DerTicksExact | visualization/Contours.js:96-105 | the derivative times increase and are exactly the half-hour multiples from the hour after JTmin to the hour before JTmax |
| Contours.DerTickSound | visualization/Contours.js:105 | each loop time lies in the bounds and on a half hour |
| Contours.DerTickComplete | visualization/Contours.js:105 | each half hour in the bounds is a loop time |
| Contours.HalfHoursBetween | visualization/Contours.js:105 | two half-hour ticks are a whole number of half hours apart |
| Contours.ScanTicksPrefix | visualization/Contours.js:105 | a loop with a later stop visits every tick of one with an earlier stop |
| Contours.SegmentPoints | visualization/Contours.js:53-61 | each list holds 2× the segment count: the start then the end point of each segment, in order |
| Contours.LinePoints | visualization/Contours.js:54-61 | the inner loop returns `SegmentPoints` |
| Contours.ContourToPoints | visualization/Contours.js:44-66 | one point list per contour, in key order, each the contour's segment points |
| Contours.DerPoints | visualization/Contours.js:105-130 | one point list per derivative time |
| Contours.DerPointsAt | visualization/Contours.js:105-130 | the i-th point list holds the points of the level-0 contour at the i-th derivative time |
| Contours.CreateContours | visualization/Contours.js:79-137 | the method returns `ContoursOf`: magnitude levels 0.001–0.8 and umbra level 0.99 on the widened grid, and the derivative contours |
| Contours.DerContours | visualization/Contours.js:103-130 | the half-hour loop returns `DerPoints` over the inclusive time range |
| Contours.DerContoursShape | visualization/Contours.js:96-130 | one list per derivative time, each on a half hour in the bounds and holding 2× that time's segment count |
| Captions.LongestOf | visualization/Captions.js:6-19 | the contour index is the first with the maximal segment count (strict `>`), and 0 when every contour is empty |
| Captions.MaxCaption | visualization/Captions.js:31-35 | a maximum caption sits at the first segment's start offset by (−3, −2) |
| Captions.MaxCaptionsExact | visualization/Captions.js:21-36 | exactly the contours with more than one segment get a maximum caption, in key order |
| Captions.CrossesExact | visualization/Captions.js:73 | a level is crossed iff the two ends do not lie strictly on the same side and are not both on the level |
| Captions.LevelCaptionsCount | visualization/Captions.js:69-89 | a segment gets one caption per crossed level |
| Captions.LevelCaptionsPlaced | visualization/Captions.js:83-87 | each level caption sits at the segment start offset by (+0.5, +1) and shows one of the levels |
| Captions.LevelTextsDistinct | visualization/Captions.js:8 | the four level texts differ |
| Captions.LevelCaptionsPresent | visualization/Captions.js:69-89 | a level's caption is present iff that level is crossed |
| Captions.LineCaptionsCount | visualization/Captions.js:54-90 | the level captions of a contour number exactly its crossings |
| Captions.LongestEmpty | visualization/Captions.js:6-19 | the longest contour has no segment exactly when no contour has one |
| Captions.MagCaptionsShape | visualization/Captions.js:42-89 | the magnitude captions open with the two "0.0" captions at the contour's ends and then one caption per level crossing |
| Captions.CaptionsOutcome | visualization/Captions.js:1-92 | fails iff every contour is empty; otherwise the longest is the first maximal contour, the two "0.0" captions come first, and there are 2 + crossings magnitude captions |
| Captions.CreateMagCaptions | visualization/Captions.js:1-92 | the method returns `CaptionsOf` |
| Captions.MagCaptions | visualization/Captions.js:39-90 | the magnitude list for the longest contour is `MagCaptionsOf` |
| Captions.ScanContours | visualization/Captions.js:6-37 | the first loop returns the first-longest index and the maximum captions |
| Captions.AddLevelCaptions | visualization/Captions.js:69-89 | the level loop appends the captions of the crossed levels |
| Format.DigitChar | app.js:57 | a digit character and its value |
| Format.NatToString | app.js:65-67 | an integer is written in decimal digits; one digit exactly below ten |
| Format.IntToString | app.js:65 | a negative number is "-" followed by its magnitude |
| Format.NatToStringRoundTrip | app.js:65-67 | reading the decimal digits back gives the number |
| Format.NatToStringLength | app.js:65-67 | two-digit and four-digit numbers have that many characters |
| Format.ToFixed | app.js:55-60 | below ten the text is "0" then the number; otherwise the number |
| Format.ToFixedTwoDigits | app.js:55-60 | non-negative fields have at least two digits (exactly two below 100) and read back as the field |
| Format.Join3 | app.js:65-67 | where the fields and separators lie in the joined text |
| Format.PartsFields | app.js:62-68 | the date and time halves have fixed widths and separators, and every field reads back |
| Format.TimestampFields | app.js:62-68 | for a four-digit year the timestamp is `YYYY-MM-DDTHH:MM:SS`; each field sits in its own columns and reads back as the calendar value |
| Format.HourMinuteFields | visualization/Captions.js:34 | a two-digit hour gives `HH:MM` with both fields reading back |
| App.LastIndexExact | app.js:81-88 | the table has exactly the listed names, each mapped to the index of its last occurrence |
| App.BuildNameTable | app.js:77-88 | the names are `NameOf` ("date (type)") of each eclipse, one per eclipse and in order, and the index table is `LastIndex` of those names |
| App.AimAt | app.js:199-233 | a rotation exists exactly when the aimed point is not NaN |
| App.CameraShowsAim | app.js:21-22 | the camera coordinates shown for an aimed rotation are the aimed point |
| App.DegRadInverse | app.js:522-523 | degrees to radians and back is the identity |
| App.Unwrapped | app.js:209-210 | only the last-penumbra longitude changes, raised by 360° exactly in the interpolating case when it lies west of the first |
| App.UnwrappedEast | app.js:209-210 | after unwrapping, the last longitude is between the first and the first + 360° |
| App.UnwrappedIdempotent | app.js:209-210 | unwrapping twice is unwrapping once |
| App.UnwrapIsFullTurn | app.js:209-214 | the 360° raise changes the rotation by one full turn |
| App.TargetOutsidePenumbra | app.js:195-206 | without umbra: before first contact the target is the first penumbral contact, after last contact the last |
| App.InterpolatedAtEnds | app.js:212-217 | at progress 0 the interpolation aims at the first penumbral contact, at progress 1 at the last |
| App.TargetInterpolationEnds | app.js:207-218 | without umbra: the interpolation reaches the first contact at its time and the (unwrapped) last contact at its time |
| App.InterpolationBetween | app.js:207-218 | an interpolated target's latitude lies between the two contacts' latitudes |
| App.ProgressIsFraction | app.js:214 | the interpolation fraction lies in [0, 1] |
| App.BetweenEnds | app.js:212-217 | a fraction in [0, 1] gives a point between the two ends |
| App.TargetWithUmbra | app.js:220-234 | with umbra: before first umbral contact the first, after the last the last, otherwise the sub-axis point |
| App.EclipseState.constructor | app.js:115-177 | the state holds the given contacts and window |
| App.EclipseState.ComputeTarget | app.js:191-237 | returns `TargetOf` the old contacts and stores the unwrapped contacts |
| App.EffectiveWarp | app.js:294-297 | a warp of 0 becomes 0.00001; any other warp is kept, so the warp is never zero |
| App.RebasedKeepsTime | app.js:316-327 | rebasing `JTstart` for a new warp keeps the displayed time |
| App.SliderRoundTrip | app.js:331-346 | inside the window the slider value is in [0, 10000]; mapping it back gives a time at most one slider unit before the displayed time |
| App.FloorBounds | app.js:331 | the floored slider value brackets the time within one slider unit |
| App.ScaledFraction | app.js:331 | a time in the window scales into [0, 10000] |
| App.SliderStartShowsPosition | app.js:345-352 | after a slider update the displayed time is the time the slider value selects |
| App.ResetShowsStart | app.js:363-370 | after a reset the displayed time is JTmin |
| App.Viewer.constructor | app.js:272-273 | startup: the viewer shows the given eclipse with nothing pending and no slider activity; the startup load restarts `JTstart` at its clock reading and aims both rotations at that eclipse's first penumbral contact (NaN when the contact is), replacing the declared (−90°, 0°) |
| App.Viewer.Next | app.js:258-261 | the pending eclipse is (ind + 1) mod n: the next one, or 0 after the last |
| App.Viewer.Prev | app.js:262-269 | the pending eclipse is ind − 1, or n − 1 from the first |
| App.Viewer.Select | app.js:106-110 | the pending eclipse is the table's index for the selected name |
| App.Viewer.TakePending | app.js:287-292 | a pending eclipse becomes the current one and nothing stays pending; its load (ending at `app.js` lines 173-176) restarts `JTstart` at the load's clock reading and aims both rotations at the new eclipse's first penumbral contact (NaN when that contact is), and without a load nothing of this changes |
| App.Viewer.SliderInput | app.js:244-250 | the slider holds the moved value; the first input of a drag records its time and that moved value; later inputs keep them |
| App.Viewer.UpdateWarp | app.js:294-324 | the warp is never zero, `JTstart` is rebased only when the warp changed, and the displayed time is unchanged |
| App.Viewer.UpdateSlider | app.js:329-355 | idle: the slider follows the time; a drag older than 1000 ms ends; a live drag moves `JTstart` so the time is the one the slider selects |
| App.Viewer.ResetOutside | app.js:363-370 | outside the window with no slider activity `JTstart` resets to now; otherwise it is unchanged |
| App.Viewer.FollowTarget | app.js:404-411 | each locked axis takes the target's rotation; an unlocked one keeps its value |
| App.Viewer.Frame | app.js:279-411 | one frame: the pending eclipse becomes current and nothing stays pending; the displayed time is the old warp's time from the start in force after any load (so exactly JTmin on a load at the frame's own clock reading); the effective warp is recorded; the contacts are unwrapped; each locked axis ends on the target at that time, an unlocked one on the load's aim or its old value |

## Left out

- Everything inside `orbitsjs`: Besselian elements, nutation, `coordFundEfi`
  (`visualization/Lines.js:13-23`), `eclipseMagnitude`, `eclipseMagGrid`,
  `eclipseMagDerGrid`, `createContours`, calendar conversion and the WGS84 transforms.
  It is a foreign library doing floating-point astronomy, so it is an uninterpreted
  parameter of every operation (`Eclipse.Ephemeris`, `Contours.ContourLib`, `Captions.CaptionLib`).
- Floating-point drift of the `JT += step` loops: times are exact ticks of 0.1 s, and
  the library's answers at a tick are taken as given.
- MaxLine.ProbeAngles: the angle loop `for (angle = 0; angle <= 360; angle += deltaAngle)`
  with `deltaAngle` = 0.1 (`visualization/Lines.js:445`, `:458`) accumulates a double, so
  whether its last probe at 360° runs depends on rounding; the model probes exactly the
  angles k/10 for k = 0 .. 3600.
- Lines.AdaptiveAdvance: the adaptive step `timeStep·5·zeta + 1 s` is floored to whole
  ticks, and termination relies on `zeta` ≥ 0 wherever it is defined (`Eclipse.WellFormed`).
- Trigonometry and geodesy: the `cosd` window scale of the umbra grid, the angle loop's
  coordinates and the numeric magnitude derivative of `computeMax` are library outputs
  (`Eclipse.UmbraCell`, `Eclipse.MaxProbe`).
- MaxLine.SortByZ: `Array.prototype.sort` is modelled as an insertion sort by z. It is
  proved ordered and a permutation; the order among points of equal z is not claimed.
- Rendering and UI: the drawing functions of `Lines.js`, `Contours.js` and `Captions.js`,
  `visualization/Spheres.js`, the WebGL and shader setup, the view matrix, the text
  captions of `drawScene`, `GUI/Controls.js` and the DOM and autocomplete widgets.
  The slider's DOM clamping of its value to [0, 10000] is also left out.
- `computation/ContourWorker.js` (web-worker message plumbing) is not part of this model.
- `loadEclipse` (`app.js:115-178`) apart from its closing camera and `JTstart` reset
  (`app.js:173-176`, part of App.Viewer.TakePending). It calls `createDerContours`, which is
  defined nowhere (`app.js:153`). It passes three arguments to the four-parameter
  `computeRiseSet` (`app.js:160`). It writes `JTax` instead of `JTmax` (`app.js:171`).
  The model's operations take their arguments directly and do not reproduce these call sites.
- App.SliderRoundTrip, App.Viewer.UpdateSlider, App.Viewer.Frame: require JTmin < JTmax,
  because the slider formula divides by the window length.
- App.Viewer.Frame: does not state the slider and reset outcomes of that frame; those
  are the contracts of `UpdateSlider` and `ResetOutside`, which it calls. The newly
  loaded eclipse's state is its `state` argument; computing it is left out with
  `loadEclipse`.
- `Pi` is the double closest to π, as `deg2Rad` uses it; angles are exact reals otherwise.
- Magnitudes are reals, so a NaN magnitude in the caption crossing test is not modelled.
- Format.HourMinuteFields: covers two-digit hours only; hours 0–9 give `H:MM`, which
  the source writes without padding.
- Format.TimestampFields: assumes a four-digit year and calendar fields below 100.
  `timeJulianYmdhms` with an hour of −1 or 24 (`visualization/Contours.js:98-101`)
  is treated as the linear time one hour away.
