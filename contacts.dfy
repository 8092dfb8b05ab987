/** The contact-point search of visualization/Lines.js (`computeFirstLastContact`):
    each of the four contacts is found by a coarse scan in steps of two minutes,
    forward for the first contacts and backward for the last ones, and then a fine
    scan over the two minutes behind the coarse hit (1 s for the penumbra, 0.1 s for
    the umbra). A contact that no coarse sample shows stays absent. */
module Contacts {
  import opened Common
  import opened Eclipse

  const CoarseStep: int := 2 * Minute
  const PenumbraFineStep: int := Second
  const UmbraFineStep: int := 1

  /** The penumbra touches the Earth when the rise/set boundary has points; the
      contact position is that of the first boundary point. */
  function PenumbraProbe(eph: Ephemeris): Tick -> Option<Geo>
  {
    t => if |eph.riseSet(t)| > 0 then Some(eph.boundaryGeo(t, eph.riseSet(t)[0])) else None
  }

  /** The umbra touches the Earth when zeta is defined; the contact position is the
      sub-axis point. */
  function UmbraProbe(eph: Ephemeris): Tick -> Option<Geo>
  {
    t => if eph.zeta(t).Some? then Some(eph.axisGeo(t, eph.zeta(t).value)) else None
  }

  /** The condition a scan tests: the probe sees the shadow. */
  function Seen(probe: Tick -> Option<Geo>): Tick -> bool
  {
    t => probe(t).Some?
  }

  /** The fine samples behind the coarse hit `coarse`: from one coarse step back up
      to and including `coarse` itself. */
  function FineTicks(coarse: Tick, coarseStep: int, fineStep: int): seq<Tick>
    requires fineStep != 0
  {
    ScanTicks(coarse - coarseStep, OnePast(coarse, fineStep), fineStep)
  }

  /** The contact as the two scans determine it. */
  function ContactOf(probe: Tick -> Option<Geo>, from: Tick, to: Tick, coarseStep: int, fineStep: int): Contact
    requires coarseStep != 0 && fineStep != 0
  {
    match FirstHit(Seen(probe), ScanTicks(from, to, coarseStep))
    case None => Contact(None, None)
    case Some(tc) => Refined(probe, tc, coarseStep, fineStep)
  }

  /** The contact after the fine scan behind the coarse hit `tc`. */
  function Refined(probe: Tick -> Option<Geo>, tc: Tick, coarseStep: int, fineStep: int): Contact
    requires fineStep != 0
  {
    match FirstHit(Seen(probe), FineTicks(tc, coarseStep, fineStep))
    case None => Contact(Some(tc), None)
    case Some(tf) => Contact(Some(tf), probe(tf))
  }

  /** All four contacts of the eclipse within `limits`. */
  function ContactsOf(eph: Ephemeris, limits: Limits): ContactPoints
  {
    ContactPoints(
      ContactOf(PenumbraProbe(eph), limits.jtMin, limits.jtMax, CoarseStep, PenumbraFineStep),
      ContactOf(PenumbraProbe(eph), limits.jtMax, limits.jtMin, -CoarseStep, -PenumbraFineStep),
      ContactOf(UmbraProbe(eph), limits.jtMin, limits.jtMax, CoarseStep, UmbraFineStep),
      ContactOf(UmbraProbe(eph), limits.jtMax, limits.jtMin, -CoarseStep, -UmbraFineStep))
  }

  /** One scan loop: walk from `start` by `step` while `stop` is not reached and stop
      at the first sample satisfying `cond`. */
  method Scan(cond: Tick -> bool, start: Tick, stop: Tick, step: int) returns (hit: Option<Tick>)
    requires step != 0
    ensures hit == FirstHit(cond, ScanTicks(start, stop, step))
  {
    ghost var ts := ScanTicks(start, stop, step);
    var t := start;
    ghost var i: nat := 0;
    hit := None;
    while Precedes(t, stop, step)
      invariant i <= |ts|
      invariant i < |ts| ==> ts[i] == t
      invariant i == |ts| ==> !Precedes(t, stop, step)
      invariant FirstHit(cond, ts) == FirstHit(cond, ts[i..])
      decreases if step > 0 then stop - t else t - stop
    {
      FirstHitFrom(cond, ts, i);
      if cond(t) {
        hit := Some(t);
        return;
      }
      ScanTicksStep(start, stop, step, i);
      t := t + step;
      i := i + 1;
    }
  }

  /** One contact: the coarse scan, then the fine scan behind its hit, which also
      records the position. */
  method FindContact(probe: Tick -> Option<Geo>, from: Tick, to: Tick, coarseStep: int, fineStep: int)
    returns (c: Contact)
    requires coarseStep != 0 && fineStep != 0
    ensures c == ContactOf(probe, from, to, coarseStep, fineStep)
  {
    var coarse := Scan(Seen(probe), from, to, coarseStep);
    if coarse.None? {
      c := Contact(None, None);
    } else {
      c := RefineContact(probe, coarse.value, coarseStep, fineStep);
    }
  }

  /** The fine scan behind the coarse hit `tc`, which also records the position. */
  method RefineContact(probe: Tick -> Option<Geo>, tc: Tick, coarseStep: int, fineStep: int)
    returns (c: Contact)
    requires fineStep != 0
    ensures c == Refined(probe, tc, coarseStep, fineStep)
  {
    var start, stop := tc - coarseStep, OnePast(tc, fineStep);
    var fine := Scan(Seen(probe), start, stop, fineStep);
    assert ScanTicks(start, stop, fineStep) == FineTicks(tc, coarseStep, fineStep);
    if fine.None? {
      c := Contact(Some(tc), None);
    } else {
      c := Contact(fine, probe(fine.value));
    }
  }

  /** `computeFirstLastContact`. */
  method ComputeFirstLastContact(eph: Ephemeris, limits: Limits) returns (cp: ContactPoints)
    ensures cp == ContactsOf(eph, limits)
  {
    var firstPenumbra := FindContact(PenumbraProbe(eph), limits.jtMin, limits.jtMax, CoarseStep, PenumbraFineStep);
    var lastPenumbra := FindContact(PenumbraProbe(eph), limits.jtMax, limits.jtMin, -CoarseStep, -PenumbraFineStep);
    var firstUmbra := FindContact(UmbraProbe(eph), limits.jtMin, limits.jtMax, CoarseStep, UmbraFineStep);
    var lastUmbra := FindContact(UmbraProbe(eph), limits.jtMax, limits.jtMin, -CoarseStep, -UmbraFineStep);
    cp := ContactPoints(firstPenumbra, lastPenumbra, firstUmbra, lastUmbra);
  }

  /** The fine bracket contains the coarse hit whenever the fine step divides the
      coarse step. */
  lemma FineTicksContainCoarse(tc: Tick, coarseStep: int, fineStep: int)
    requires coarseStep != 0 && fineStep != 0 && (coarseStep > 0 <==> fineStep > 0)
    requires coarseStep % fineStep == 0
    ensures tc in FineTicks(tc, coarseStep, fineStep)
  {
    var n := coarseStep / fineStep;
    assert coarseStep == n * fineStep;
    assert n >= 0;
    ScanTicksReaches(tc - coarseStep, tc, n, fineStep);
  }

  /** A contact is absent exactly when no coarse sample sees the shadow; once the
      coarse scan has a hit, the fine scan always finds a time, and the position is
      recorded exactly when the time is and belongs to that time. */
  lemma ContactOfComplete(probe: Tick -> Option<Geo>, from: Tick, to: Tick, coarseStep: int, fineStep: int)
    requires coarseStep != 0 && fineStep != 0 && (coarseStep > 0 <==> fineStep > 0)
    requires coarseStep % fineStep == 0
    ensures var c := ContactOf(probe, from, to, coarseStep, fineStep);
            && (c.time.None? <==> forall t :: t in ScanTicks(from, to, coarseStep) ==> probe(t).None?)
            && (c.time.Some? <==> c.place.Some?)
            && (c.time.Some? ==> probe(c.time.value) == c.place)
  {
    var coarse := FirstHit(Seen(probe), ScanTicks(from, to, coarseStep));
    if coarse.Some? {
      FineTicksContainCoarse(coarse.value, coarseStep, fineStep);
    } else {
      assert forall t :: t in ScanTicks(from, to, coarseStep) ==> !Seen(probe)(t);
    }
  }

  /** Behind a coarse hit the fine scan always finds a time (the coarse hit itself
      is a fine sample), and that time is the first fine sample seeing the shadow,
      at most one coarse step before the coarse hit and never after it. */
  lemma RefinedIsFirstFineHit(probe: Tick -> Option<Geo>, tc: Tick, coarseStep: int, fineStep: int)
    requires coarseStep != 0 && fineStep != 0 && (coarseStep > 0 <==> fineStep > 0)
    requires coarseStep % fineStep == 0
    requires probe(tc).Some?
    ensures Refined(probe, tc, coarseStep, fineStep).time.Some?
    ensures var tf := Refined(probe, tc, coarseStep, fineStep).time.value;
            && IsFirstHit(Seen(probe), FineTicks(tc, coarseStep, fineStep), fineStep, tf)
            && (tf == tc || Precedes(tf, tc, coarseStep))
            && (tf == tc - coarseStep || Precedes(tc - coarseStep, tf, coarseStep))
  {
    FineTicksContainCoarse(tc, coarseStep, fineStep);
    assert Seen(probe)(tc);
    FirstHitOnScan(Seen(probe), tc - coarseStep, OnePast(tc, fineStep), fineStep);
  }

  /** A found contact time is the first fine sample, in walking order, that sees the
      shadow within the bracket behind the first coarse hit: never after the coarse
      hit and no more than one coarse step before it. */
  lemma ContactOfRefines(probe: Tick -> Option<Geo>, from: Tick, to: Tick, coarseStep: int, fineStep: int)
    requires coarseStep != 0 && fineStep != 0 && (coarseStep > 0 <==> fineStep > 0)
    requires coarseStep % fineStep == 0
    requires ContactOf(probe, from, to, coarseStep, fineStep).time.Some?
    ensures var tf := ContactOf(probe, from, to, coarseStep, fineStep).time.value;
            exists tc ::
              && IsFirstHit(Seen(probe), ScanTicks(from, to, coarseStep), coarseStep, tc)
              && IsFirstHit(Seen(probe), FineTicks(tc, coarseStep, fineStep), fineStep, tf)
              && (tf == tc || Precedes(tf, tc, coarseStep))
              && (tf == tc - coarseStep || Precedes(tc - coarseStep, tf, coarseStep))
  {
    var tc := FirstHit(Seen(probe), ScanTicks(from, to, coarseStep)).value;
    FirstHitOnScan(Seen(probe), from, to, coarseStep);
    assert Seen(probe)(tc);
    RefinedIsFirstFineHit(probe, tc, coarseStep, fineStep);
    assert ContactOf(probe, from, to, coarseStep, fineStep) == Refined(probe, tc, coarseStep, fineStep);
  }

  /** The four contacts: each is absent exactly when its coarse scan sees nothing,
      and a contact time comes with the position of that time. */
  lemma ContactsComplete(eph: Ephemeris, limits: Limits)
    ensures var cp := ContactsOf(eph, limits);
            && (cp.firstPenumbra.time.None? <==>
                  forall t :: t in ScanTicks(limits.jtMin, limits.jtMax, CoarseStep) ==> |eph.riseSet(t)| == 0)
            && (cp.lastPenumbra.time.None? <==>
                  forall t :: t in ScanTicks(limits.jtMax, limits.jtMin, -CoarseStep) ==> |eph.riseSet(t)| == 0)
            && (cp.firstUmbra.time.None? <==>
                  forall t :: t in ScanTicks(limits.jtMin, limits.jtMax, CoarseStep) ==> eph.zeta(t).None?)
            && (cp.lastUmbra.time.None? <==>
                  forall t :: t in ScanTicks(limits.jtMax, limits.jtMin, -CoarseStep) ==> eph.zeta(t).None?)
            && (cp.firstPenumbra.time.Some? <==> cp.firstPenumbra.place.Some?)
            && (cp.lastPenumbra.time.Some? <==> cp.lastPenumbra.place.Some?)
            && (cp.firstUmbra.time.Some? <==> cp.firstUmbra.place.Some?)
            && (cp.lastUmbra.time.Some? <==> cp.lastUmbra.place.Some?)
  {
    ContactOfComplete(PenumbraProbe(eph), limits.jtMin, limits.jtMax, CoarseStep, PenumbraFineStep);
    ContactOfComplete(PenumbraProbe(eph), limits.jtMax, limits.jtMin, -CoarseStep, -PenumbraFineStep);
    ContactOfComplete(UmbraProbe(eph), limits.jtMin, limits.jtMax, CoarseStep, UmbraFineStep);
    ContactOfComplete(UmbraProbe(eph), limits.jtMax, limits.jtMin, -CoarseStep, -UmbraFineStep);
  }

  /** When the shadow axis misses the Earth throughout `limits` (a partial eclipse),
      both umbral contacts are absent, time and position. */
  lemma PartialEclipseHasNoUmbralContact(eph: Ephemeris, limits: Limits)
    requires forall t :: limits.jtMin <= t <= limits.jtMax ==> eph.zeta(t).None?
    ensures ContactsOf(eph, limits).firstUmbra == Contact(None, None)
    ensures ContactsOf(eph, limits).lastUmbra == Contact(None, None)
  {
    var forward := ScanTicks(limits.jtMin, limits.jtMax, CoarseStep);
    var backward := ScanTicks(limits.jtMax, limits.jtMin, -CoarseStep);
    assert forall t :: t in forward ==> !Seen(UmbraProbe(eph))(t);
    assert forall t :: t in backward ==> !Seen(UmbraProbe(eph))(t);
  }
}
