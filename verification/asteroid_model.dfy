/** The decoded feed: the model classes of `AsteroidModel.swift` as
    immutable datatypes, and their `init(fromJSON:)` initialisers as
    decoding functions.

    Every initialiser has the same shape: on an empty JSON value it returns
    at once and leaves every optional field nil; otherwise it sets every
    field from the accessor named after the field. The well-formedness
    predicates state exactly that shape, and every decoder promises it. */
module AsteroidModel {
  import opened Wrappers
  import opened Dictionaries
  import opened Json

  datatype KiloMetersModel = KiloMetersModel(
    estimatedDiameterMin: Option<int>,
    estimatedDiameterMax: Option<int>)

  datatype MissDistanceModel = MissDistanceModel(
    miles: Option<string>,
    kilometers: Option<string>)

  datatype RelativeVelocityModel = RelativeVelocityModel(
    kilometersPerSecond: Option<string>,
    kilometersPerHour: Option<string>,
    milesPerHour: Option<string>)

  datatype CloseApproachDataModel = CloseApproachDataModel(
    closeApproachDateFull: Option<string>,
    relativeVelocity: Option<RelativeVelocityModel>,
    missDistance: Option<MissDistanceModel>)

  datatype NearEarthObjects = NearEarthObjects(
    id: Option<string>,
    neoReferenceId: Option<string>,
    name: Option<string>,
    kilometers: Option<KiloMetersModel>,
    closeApproachData: seq<CloseApproachDataModel>)

  /** The objects of each day, keyed by date, in iteration order. */
  type Feed = seq<(string, Option<seq<NearEarthObjects>>)>

  datatype AsteroidsModel = AsteroidsModel(
    elementCount: Option<int>,
    nearEarthObjects: Option<Feed>)

  /* The value of each class right after the early return on empty input. */
  const BlankKiloMeters := KiloMetersModel(None, None)
  const BlankMissDistance := MissDistanceModel(None, None)
  const BlankRelativeVelocity := RelativeVelocityModel(None, None, None)
  const BlankCloseApproach := CloseApproachDataModel(None, None, None)
  const BlankNearEarthObject := NearEarthObjects(None, None, None, None, [])
  const BlankAsteroids := AsteroidsModel(None, None)

  // ---------------------------------------------------------------------
  // Well-formedness: what a decoder can produce

  predicate WellFormedKiloMeters(k: KiloMetersModel) {
    k == BlankKiloMeters
    || (k.estimatedDiameterMin.Some? && k.estimatedDiameterMax.Some?)
  }

  predicate WellFormedMissDistance(m: MissDistanceModel) {
    m == BlankMissDistance || (m.miles.Some? && m.kilometers.Some?)
  }

  /** Populated velocities always carry the km/s text in the mph field. */
  predicate WellFormedRelativeVelocity(v: RelativeVelocityModel) {
    v == BlankRelativeVelocity
    || (&& v.kilometersPerSecond.Some?
        && v.kilometersPerHour.Some?
        && v.milesPerHour == v.kilometersPerSecond)
  }

  predicate WellFormedCloseApproach(c: CloseApproachDataModel) {
    c == BlankCloseApproach
    || (&& c.closeApproachDateFull.Some?
        && c.relativeVelocity.Some? && WellFormedRelativeVelocity(c.relativeVelocity.value)
        && c.missDistance.Some? && WellFormedMissDistance(c.missDistance.value))
  }

  predicate WellFormedNearEarthObject(o: NearEarthObjects) {
    o == BlankNearEarthObject
    || (&& o.id.Some? && o.neoReferenceId.Some? && o.name.Some?
        && o.kilometers.Some? && WellFormedKiloMeters(o.kilometers.value)
        && forall i :: 0 <= i < |o.closeApproachData| ==>
             WellFormedCloseApproach(o.closeApproachData[i]))
  }

  predicate WellFormedObjects(objs: seq<NearEarthObjects>) {
    forall k :: 0 <= k < |objs| ==> WellFormedNearEarthObject(objs[k])
  }

  /** Every day of a decoded feed holds a (non-nil) list. */
  predicate WellFormedFeed(feed: Feed) {
    forall i :: 0 <= i < |feed| ==>
      feed[i].1.Some? && WellFormedObjects(feed[i].1.value)
  }

  predicate WellFormedAsteroids(a: AsteroidsModel) {
    a == BlankAsteroids
    || (&& a.elementCount.Some?
        && a.nearEarthObjects.Some? && WellFormedFeed(a.nearEarthObjects.value))
  }

  // ---------------------------------------------------------------------
  // Decoders: the `init(fromJSON:)` initialisers

  /** `KiloMetersModel(fromJSON:)`. */
  function DecodeKiloMeters(j: Json): (r: KiloMetersModel)
    ensures r == BlankKiloMeters <==> IsEmpty(j)
    ensures WellFormedKiloMeters(r)
  {
    if IsEmpty(j) then BlankKiloMeters
    else KiloMetersModel(
      Some(IntValue(Member(j, "estimated_diameter_min"))),
      Some(IntValue(Member(j, "estimated_diameter_max"))))
  }

  /** `MissDistanceModel(fromJSON:)`. */
  function DecodeMissDistance(j: Json): (r: MissDistanceModel)
    ensures r == BlankMissDistance <==> IsEmpty(j)
    ensures WellFormedMissDistance(r)
    ensures !IsEmpty(j) ==> r.kilometers == Some(StringValue(Member(j, "kilometers")))
  {
    if IsEmpty(j) then BlankMissDistance
    else MissDistanceModel(
      Some(StringValue(Member(j, "miles"))),
      Some(StringValue(Member(j, "kilometers"))))
  }

  /** `RelativeVelocityModel(fromJSON:)`. The mph field is read from the
      `kilometers_per_second` key, as the initialiser does; the input's
      `miles_per_hour` member is never read. */
  function DecodeRelativeVelocity(j: Json): (r: RelativeVelocityModel)
    ensures r == BlankRelativeVelocity <==> IsEmpty(j)
    ensures WellFormedRelativeVelocity(r)
    ensures r.milesPerHour == r.kilometersPerSecond
    ensures !IsEmpty(j) ==> r.kilometersPerHour == Some(StringValue(Member(j, "kilometers_per_hour")))
  {
    if IsEmpty(j) then BlankRelativeVelocity
    else RelativeVelocityModel(
      Some(StringValue(Member(j, "kilometers_per_second"))),
      Some(StringValue(Member(j, "kilometers_per_hour"))),
      Some(StringValue(Member(j, "kilometers_per_second"))))
  }

  /** `CloseApproachDataModel(fromJSON:)`: both sub-models are built
      whenever the entry itself is non-empty. */
  function DecodeCloseApproach(j: Json): (r: CloseApproachDataModel)
    ensures r == BlankCloseApproach <==> IsEmpty(j)
    ensures WellFormedCloseApproach(r)
    ensures !IsEmpty(j) ==>
      && r.relativeVelocity == Some(DecodeRelativeVelocity(Member(j, "relative_velocity")))
      && r.missDistance == Some(DecodeMissDistance(Member(j, "miss_distance")))
  {
    if IsEmpty(j) then BlankCloseApproach
    else CloseApproachDataModel(
      Some(StringValue(Member(j, "close_approach_date_full"))),
      Some(DecodeRelativeVelocity(Member(j, "relative_velocity"))),
      Some(DecodeMissDistance(Member(j, "miss_distance"))))
  }

  /** The approach list: one decoded entry per array element, in order. */
  function DecodeCloseApproaches(items: seq<Json>): (r: seq<CloseApproachDataModel>)
    ensures |r| == |items|
    ensures forall i :: 0 <= i < |items| ==> r[i] == DecodeCloseApproach(items[i])
  {
    seq(|items|, i requires 0 <= i < |items| => DecodeCloseApproach(items[i]))
  }

  /** `NearEarthObjects(fromJSON:)`. */
  function DecodeNearEarthObject(j: Json): (r: NearEarthObjects)
    ensures r == BlankNearEarthObject <==> IsEmpty(j)
    ensures WellFormedNearEarthObject(r)
    ensures !IsEmpty(j) ==> r.name == Some(StringValue(Member(j, "name")))
    ensures r.closeApproachData == DecodeCloseApproaches(ArrayValue(Member(j, "close_approach_data")))
  {
    if IsEmpty(j) then BlankNearEarthObject
    else NearEarthObjects(
      Some(StringValue(Member(j, "id"))),
      Some(StringValue(Member(j, "neo_reference_id"))),
      Some(StringValue(Member(j, "name"))),
      Some(DecodeKiloMeters(Member(j, "kilometers"))),
      DecodeCloseApproaches(ArrayValue(Member(j, "close_approach_data"))))
  }

  /** One day's list: `objects.arrayValue.compactMap(NearEarthObjects.init)`.
      The initialiser never fails, so nothing is dropped. */
  function DecodeDay(objects: Json): (r: seq<NearEarthObjects>)
    ensures |r| == |ArrayValue(objects)|
    ensures forall k :: 0 <= k < |r| ==> r[k] == DecodeNearEarthObject(ArrayValue(objects)[k])
  {
    var items := ArrayValue(objects);
    seq(|items|, k requires 0 <= k < |items| => DecodeNearEarthObject(items[k]))
  }

  /** The loop over `near_earth_objects`: each date keeps its key, in the
      object's own order, and gets its decoded list. */
  function DecodeFeed(days: seq<(string, Json)>): (r: Feed)
    ensures Keys(r) == Keys(days)
    ensures DistinctKeys(days) ==> DistinctKeys(r)
    ensures forall i :: 0 <= i < |days| ==> r[i].1 == Some(DecodeDay(days[i].1))
    ensures WellFormedFeed(r)
  {
    seq(|days|, i requires 0 <= i < |days| => (days[i].0, Some(DecodeDay(days[i].1))))
  }

  /** `AsteroidsModel(fromJSON:)`. */
  function DecodeAsteroids(j: Json): (r: AsteroidsModel)
    ensures r == BlankAsteroids <==> IsEmpty(j)
    ensures WellFormedAsteroids(r)
    ensures !IsEmpty(j) ==>
      && r.elementCount == Some(IntValue(Member(j, "element_count")))
      && r.nearEarthObjects == Some(DecodeFeed(DictionaryValue(Member(j, "near_earth_objects"))))
  {
    if IsEmpty(j) then BlankAsteroids
    else AsteroidsModel(
      Some(IntValue(Member(j, "element_count"))),
      Some(DecodeFeed(DictionaryValue(Member(j, "near_earth_objects")))))
  }
}
