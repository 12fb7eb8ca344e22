/** The JSON that each decoded model comes from: an encoder for every
    model class, and the round trips that tie it to the decoders. A
    well-formed model is exactly what a decoder can produce, and decoding
    its encoding gives it back. */
module AsteroidEncoding {
  import opened Wrappers
  import opened Dictionaries
  import opened Json
  import opened AsteroidModel

  function EncodeKiloMeters(k: KiloMetersModel): Json {
    if k == BlankKiloMeters then Obj([])
    else Obj([
      ("estimated_diameter_min", Num(k.estimatedDiameterMin.GetOr(0) as real, "")),
      ("estimated_diameter_max", Num(k.estimatedDiameterMax.GetOr(0) as real, ""))])
  }

  function EncodeMissDistance(m: MissDistanceModel): Json {
    if m == BlankMissDistance then Obj([])
    else Obj([
      ("miles", Str(m.miles.GetOr(""))),
      ("kilometers", Str(m.kilometers.GetOr("")))])
  }

  function EncodeRelativeVelocity(v: RelativeVelocityModel): Json {
    if v == BlankRelativeVelocity then Obj([])
    else Obj([
      ("kilometers_per_second", Str(v.kilometersPerSecond.GetOr(""))),
      ("kilometers_per_hour", Str(v.kilometersPerHour.GetOr(""))),
      ("miles_per_hour", Str(v.milesPerHour.GetOr("")))])
  }

  function EncodeCloseApproach(c: CloseApproachDataModel): Json {
    if c == BlankCloseApproach then Obj([])
    else Obj([
      ("close_approach_date_full", Str(c.closeApproachDateFull.GetOr(""))),
      ("relative_velocity", EncodeRelativeVelocity(c.relativeVelocity.GetOr(BlankRelativeVelocity))),
      ("miss_distance", EncodeMissDistance(c.missDistance.GetOr(BlankMissDistance)))])
  }

  function EncodeCloseApproaches(cs: seq<CloseApproachDataModel>): (r: seq<Json>)
    ensures |r| == |cs|
    ensures forall i :: 0 <= i < |cs| ==> r[i] == EncodeCloseApproach(cs[i])
  {
    seq(|cs|, i requires 0 <= i < |cs| => EncodeCloseApproach(cs[i]))
  }

  function EncodeNearEarthObject(o: NearEarthObjects): Json {
    if o == BlankNearEarthObject then Obj([])
    else Obj([
      ("id", Str(o.id.GetOr(""))),
      ("neo_reference_id", Str(o.neoReferenceId.GetOr(""))),
      ("name", Str(o.name.GetOr(""))),
      ("kilometers", EncodeKiloMeters(o.kilometers.GetOr(BlankKiloMeters))),
      ("close_approach_data", Arr(EncodeCloseApproaches(o.closeApproachData)))])
  }

  function EncodeDay(objs: seq<NearEarthObjects>): (r: Json)
    ensures r.Arr? && |r.items| == |objs|
    ensures forall k :: 0 <= k < |objs| ==> r.items[k] == EncodeNearEarthObject(objs[k])
  {
    Arr(seq(|objs|, k requires 0 <= k < |objs| => EncodeNearEarthObject(objs[k])))
  }

  function EncodeFeed(feed: Feed): (r: seq<(string, Json)>)
    ensures Keys(r) == Keys(feed)
    ensures forall i :: 0 <= i < |feed| ==> r[i].1 == EncodeDay(feed[i].1.GetOr([]))
  {
    seq(|feed|, i requires 0 <= i < |feed| => (feed[i].0, EncodeDay(feed[i].1.GetOr([]))))
  }

  function EncodeAsteroids(a: AsteroidsModel): Json {
    if a == BlankAsteroids then Obj([])
    else Obj([
      ("element_count", Num(a.elementCount.GetOr(0) as real, "")),
      ("near_earth_objects", Obj(EncodeFeed(a.nearEarthObjects.GetOr([]))))])
  }

  // ---------------------------------------------------------------------
  // Round trips

  lemma KiloMetersRoundTrip(k: KiloMetersModel)
    requires WellFormedKiloMeters(k)
    ensures DecodeKiloMeters(EncodeKiloMeters(k)) == k
  {
    if k != BlankKiloMeters {
      var fields := EncodeKiloMeters(k).fields;
      // The solver tells two string literals apart only through a position
      // where they differ: the two keys have equal length and differ at
      // index 20 ("min" against "max").
      assert fields[0].0[20] != fields[1].0[20];
      LookupFirst(fields, 0);
      LookupFirst(fields, 1);
    }
  }

  lemma MissDistanceRoundTrip(m: MissDistanceModel)
    requires WellFormedMissDistance(m)
    ensures DecodeMissDistance(EncodeMissDistance(m)) == m
  {
    if m != BlankMissDistance {
      var fields := EncodeMissDistance(m).fields;
      LookupFirst(fields, 0);
      LookupFirst(fields, 1);
    }
  }

  /** The round trip holds because a well-formed velocity already carries
      the km/s text in its mph field: the encoder writes `miles_per_hour`,
      and the decoder ignores it. */
  lemma RelativeVelocityRoundTrip(v: RelativeVelocityModel)
    requires WellFormedRelativeVelocity(v)
    ensures DecodeRelativeVelocity(EncodeRelativeVelocity(v)) == v
  {
    if v != BlankRelativeVelocity {
      var fields := EncodeRelativeVelocity(v).fields;
      LookupFirst(fields, 0);
      LookupFirst(fields, 1);
    }
  }

  lemma CloseApproachRoundTrip(c: CloseApproachDataModel)
    requires WellFormedCloseApproach(c)
    ensures DecodeCloseApproach(EncodeCloseApproach(c)) == c
  {
    if c != BlankCloseApproach {
      var fields := EncodeCloseApproach(c).fields;
      LookupFirst(fields, 0);
      LookupFirst(fields, 1);
      LookupFirst(fields, 2);
      RelativeVelocityRoundTrip(c.relativeVelocity.value);
      MissDistanceRoundTrip(c.missDistance.value);
    }
  }

  lemma CloseApproachesRoundTrip(cs: seq<CloseApproachDataModel>)
    requires forall i :: 0 <= i < |cs| ==> WellFormedCloseApproach(cs[i])
    ensures DecodeCloseApproaches(EncodeCloseApproaches(cs)) == cs
  {
    forall i | 0 <= i < |cs| ensures DecodeCloseApproach(EncodeCloseApproach(cs[i])) == cs[i] {
      CloseApproachRoundTrip(cs[i]);
    }
  }

  /** Each member the decoder reads from an encoded object is the encoding
      of the matching field. */
  lemma NearEarthObjectMembers(o: NearEarthObjects)
    requires o != BlankNearEarthObject
    ensures var j := EncodeNearEarthObject(o);
      && Member(j, "id") == Str(o.id.GetOr(""))
      && Member(j, "neo_reference_id") == Str(o.neoReferenceId.GetOr(""))
      && Member(j, "name") == Str(o.name.GetOr(""))
      && Member(j, "kilometers") == EncodeKiloMeters(o.kilometers.GetOr(BlankKiloMeters))
      && Member(j, "close_approach_data") == Arr(EncodeCloseApproaches(o.closeApproachData))
  {
    var fields := EncodeNearEarthObject(o).fields;
    // The five keys have five different lengths; stating them lets the
    // solver see that no key repeats an earlier one, which it does not
    // derive from the string literals by itself.
    assert |fields[0].0| == 2 && |fields[1].0| == 16 && |fields[2].0| == 4;
    assert |fields[3].0| == 10 && |fields[4].0| == 19;
    LookupFirst(fields, 0);
    LookupFirst(fields, 1);
    LookupFirst(fields, 2);
    LookupFirst(fields, 3);
    LookupFirst(fields, 4);
  }

  lemma NearEarthObjectRoundTrip(o: NearEarthObjects)
    requires WellFormedNearEarthObject(o)
    ensures DecodeNearEarthObject(EncodeNearEarthObject(o)) == o
  {
    if o != BlankNearEarthObject {
      NearEarthObjectMembers(o);
      KiloMetersRoundTrip(o.kilometers.value);
      CloseApproachesRoundTrip(o.closeApproachData);
    } else {
      assert DecodeNearEarthObject(Obj([])) == BlankNearEarthObject;
    }
  }

  lemma FeedRoundTrip(feed: Feed)
    requires WellFormedFeed(feed)
    ensures DecodeFeed(EncodeFeed(feed)) == feed
  {
    var r := DecodeFeed(EncodeFeed(feed));
    forall i | 0 <= i < |feed| ensures r[i] == feed[i] {
      var objs := feed[i].1.value;
      forall k | 0 <= k < |objs| ensures DecodeNearEarthObject(EncodeNearEarthObject(objs[k])) == objs[k] {
        NearEarthObjectRoundTrip(objs[k]);
      }
      assert DecodeDay(EncodeDay(objs)) == objs;
      assert Keys(r)[i] == Keys(feed)[i];
    }
  }

  /** Decoding the encoding of a well-formed model gives the model back. */
  lemma AsteroidsRoundTrip(a: AsteroidsModel)
    requires WellFormedAsteroids(a)
    ensures DecodeAsteroids(EncodeAsteroids(a)) == a
  {
    if a != BlankAsteroids {
      var fields := EncodeAsteroids(a).fields;
      LookupFirst(fields, 0);
      LookupFirst(fields, 1);
      FeedRoundTrip(a.nearEarthObjects.value);
    }
  }

  /** Decoding normalises: re-encoding a decoded model and decoding again
      changes nothing. */
  lemma DecodeIsIdempotent(j: Json)
    ensures DecodeAsteroids(EncodeAsteroids(DecodeAsteroids(j))) == DecodeAsteroids(j)
  {
    AsteroidsRoundTrip(DecodeAsteroids(j));
  }

  /** A `miles_per_hour` member in the input has no effect on the decoded
      velocity: that field is filled from `kilometers_per_second`. */
  lemma MilesPerHourMemberIgnored(fields: seq<(string, Json)>, mph: Json)
    requires |fields| > 0
    ensures DecodeRelativeVelocity(Obj(fields + [("miles_per_hour", mph)])) == DecodeRelativeVelocity(Obj(fields))
  {
    LookupAppendOther(fields, ("miles_per_hour", mph), "kilometers_per_second");
    LookupAppendOther(fields, ("miles_per_hour", mph), "kilometers_per_hour");
  }
}
