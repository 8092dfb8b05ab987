/** The records the engine shares between its components, and the interface of the
    ephemeris library it calls (`orbitsjs`), whose code is not part of this model:
    every call into it is a function-valued field of `Ephemeris`, left uninterpreted. */
module Eclipse {
  import opened Common

  /** A point of the penumbral rise/set boundary in the fundamental plane
      (an element of `orbitsjs.besselianRiseSet`). */
  datatype FundPoint = FundPoint(x: real, y: real)

  /** One cell of the dense umbra grid around the sub-axis point: the grid value
      (non-zero inside the umbra), the cell's offset projected across the path of the
      shadow, and the cell's Earth-fixed position in km. */
  datatype UmbraCell = UmbraCell(value: real, dist: real, point: Vec3)

  /** One boundary-angle probe of the maximum-line search: magnitude, its change over
      one minute, whether the Sun climbs there over that minute, and the Earth-fixed
      position of the boundary point. */
  datatype MaxProbe = MaxProbe(mag: real, magDer: real, sunRising: bool, efi: Vec3)

  /** The ephemeris library, evaluated at one eclipse. */
  datatype Ephemeris = Ephemeris(
    /** `besselianRiseSet`: the rise/set boundary points at a tick (may be empty). */
    riseSet: Tick -> seq<FundPoint>,
    /** `besselianCentralLine(...).zeta`; `None` when the shadow axis misses the Earth. */
    zeta: Tick -> Option<real>,
    /** The zeta of the umbra line's second probe, taken one second ahead of a tick. */
    zetaAhead: Tick -> Option<real>,
    /** `coordFundEfi([x, y, zeta])`: the sub-axis point in m, Earth-fixed. */
    axisEfi: (Tick, real) -> Vec3,
    /** The geodetic position of the sub-axis point, as the contact search converts it. */
    axisGeo: (Tick, real) -> Geo,
    /** `coordFundEfi([px, py, 0])`: a boundary point in m, Earth-fixed. */
    boundaryEfi: (Tick, FundPoint) -> Vec3,
    /** The geodetic position of a boundary point, as the contact search converts it. */
    boundaryGeo: (Tick, FundPoint) -> Geo,
    /** The up component of the Sun's direction at a tick, seen from the geodetic
        position of an Earth-fixed point. */
    sunUp: (Tick, Vec3) -> real,
    /** The dense umbra grid scanned around the sub-axis point at a tick, by rows. */
    umbraGrid: Tick -> seq<seq<UmbraCell>>,
    /** The probe of the maximum-line search at a tick and a boundary angle, given in
        tenths of a degree. */
    maxProbe: (Tick, int) -> MaxProbe
  )

  /** Where the shadow axis meets the Earth, its perpendicular component is not
      negative (the sub-axis point lies on the hemisphere facing the Moon). */
  ghost predicate WellFormed(eph: Ephemeris)
  {
    forall t :: eph.zeta(t).Some? ==> eph.zeta(t).value >= 0.0
  }

  /** The bounding region of the visible eclipse: degrees and ticks. */
  datatype Limits = Limits(
    latMin: real, latMax: real, lonMin: real, lonMax: real,
    jtMin: Tick, jtMax: Tick, spatialRes: real, temporalRes: Tick)

  /** One contact: its time and its geodetic position, each possibly absent (NaN). */
  datatype Contact = Contact(time: Option<Tick>, place: Option<Geo>)

  /** The four contacts of the eclipse. */
  datatype ContactPoints = ContactPoints(
    firstPenumbra: Contact, lastPenumbra: Contact, firstUmbra: Contact, lastUmbra: Contact)

  /** One segment of a contour line: `[[latStart, lonStart], [latEnd, lonEnd]]`. */
  datatype Segment = Segment(start: Geo, end: Geo)

  /** The segments of one contour, under the key the contour object stores them
      (a contour level, or the Julian time of a derivative contour). */
  datatype Contour = Contour(key: real, lines: seq<Segment>)
}
