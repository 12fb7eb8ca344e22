/** The behaviour the dashboard and the velocity decoder evidently intend
    where the code does something else, each next to a concrete input on
    which the code as written (modelled in `Extrema` and `AsteroidModel`)
    differs. */
module Intended {
  import opened Wrappers
  import opened Json
  import opened Extrema
  import opened AsteroidModel
  import opened AsteroidEncoding

  // ---------------------------------------------------------------------
  // Nearest distance: "nothing found yet" kept apart from a 0 km reading

  function NearestStep(acc: Option<Extremum>, reading: Option<Extremum>): Option<Extremum> {
    match reading
    case None => acc
    case Some(e) => if acc.None? || acc.value.value > e.value then Some(e) else acc
  }

  /** The minimum scan seeded with "nothing yet" instead of `0.0`. */
  function NearestFrom(acc: Option<Extremum>, rs: Readings): Option<Extremum> {
    if |rs| == 0 then acc
    else NearestStep(NearestFrom(acc, rs[..|rs| - 1]), rs[|rs| - 1])
  }

  /** The corrected scan's value after a prefix with no reading. */
  lemma {:induction false} NearestFromNoReadings(rs: Readings)
    requires !HasReading(rs)
    ensures NearestFrom(None, rs) == None
  {
    if |rs| > 0 {
      PrefixReadings(rs, |rs| - 1);
      assert !IsReading(rs, |rs| - 1);
      NearestFromNoReadings(rs[..|rs| - 1]);
    }
  }

  /** For every sequence of readings, zero and negative ones included, the
      corrected scan reports the first smallest reading, or nothing. */
  lemma {:induction false} NearestIsFirstMinimum(rs: Readings)
    ensures !HasReading(rs) ==> NearestFrom(None, rs) == None
    ensures HasReading(rs) ==> exists k :: IsFirstMinimum(rs, k) && NearestFrom(None, rs) == rs[k]
  {
    if !HasReading(rs) {
      NearestFromNoReadings(rs);
    } else {
      var n := |rs| - 1;
      var p := rs[..n];
      PrefixReadings(rs, n);
      if !HasReading(p) {
        NearestFromNoReadings(p);
        MinStepFirstReading(rs);
        assert NearestFrom(None, rs) == rs[n];
      } else {
        NearestIsFirstMinimum(p);
        var k :| IsFirstMinimum(p, k) && NearestFrom(None, p) == p[k];
        var e := rs[k].value;
        assert NearestFrom(None, p) == Some(e);
        assert IsReading(rs, k);
        if rs[n].Some? && e.value > rs[n].value.value {
          MinStepReplace(rs, k);
          assert NearestFrom(None, rs) == rs[n];
        } else {
          MinStepKeep(rs, k);
          assert NearestFrom(None, rs) == rs[k];
        }
      }
    }
  }

  lemma FirstMinimumUnique(rs: Readings, k: int, k': int)
    requires IsFirstMinimum(rs, k) && IsFirstMinimum(rs, k')
    ensures k == k'
  {
  }

  /** Where every distance is positive the code's scan already gives the
      intended answer. */
  lemma NearestAgreesWhenPositive(rs: Readings)
    requires AllPositive(rs) && HasReading(rs)
    ensures NearestFrom(None, rs) == Some(MinFrom(Seed, rs))
  {
    NearestIsFirstMinimum(rs);
    MinScanIsFirstMinimum(rs);
    var k :| IsFirstMinimum(rs, k) && NearestFrom(None, rs) == rs[k];
    var k' :| IsFirstMinimum(rs, k') && MinFrom(Seed, rs) == rs[k'].value;
    FirstMinimumUnique(rs, k, k');
  }

  /** Distances 5, 0, 3 km: the nearest object is the 0 km one, but the
      code's scan reports the 3 km one, because the 0.0 it holds reads as
      "nothing found yet". */
  lemma ZeroDistanceLostAsWritten()
    ensures var rs := [Some(Extremum("A", 5.0)), Some(Extremum("B", 0.0)), Some(Extremum("C", 3.0))];
      && IsFirstMinimum(rs, 1)
      && MinFrom(Seed, rs) == Extremum("C", 3.0)
      && NearestFrom(None, rs) == Some(Extremum("B", 0.0))
  {
    var rs := [Some(Extremum("A", 5.0)), Some(Extremum("B", 0.0)), Some(Extremum("C", 3.0))];
    assert rs[..2] == [Some(Extremum("A", 5.0)), Some(Extremum("B", 0.0))];
    assert rs[..2][..1] == [Some(Extremum("A", 5.0))];
    assert rs[..2][..1][..0] == [];
    assert MinFrom(Seed, rs[..2][..1]) == Extremum("A", 5.0);
    assert MinFrom(Seed, rs[..2]) == Extremum("B", 0.0);
    assert NearestFrom(None, rs[..2][..1]) == Some(Extremum("A", 5.0));
    assert NearestFrom(None, rs[..2]) == Some(Extremum("B", 0.0));
  }

  // ---------------------------------------------------------------------
  // Miles per hour read from its own key

  /** `RelativeVelocityModel(fromJSON:)` with the mph field read from the
      `miles_per_hour` key. */
  function DecodeRelativeVelocityIntended(j: Json): (r: RelativeVelocityModel)
    ensures r == BlankRelativeVelocity <==> IsEmpty(j)
    ensures r.kilometersPerSecond == DecodeRelativeVelocity(j).kilometersPerSecond
    ensures r.kilometersPerHour == DecodeRelativeVelocity(j).kilometersPerHour
  {
    if IsEmpty(j) then BlankRelativeVelocity
    else RelativeVelocityModel(
      Some(StringValue(Member(j, "kilometers_per_second"))),
      Some(StringValue(Member(j, "kilometers_per_hour"))),
      Some(StringValue(Member(j, "miles_per_hour"))))
  }

  /** Every populated velocity survives encoding and intended decoding,
      whatever its mph text. */
  lemma IntendedRelativeVelocityRoundTrip(v: RelativeVelocityModel)
    requires v == BlankRelativeVelocity
          || (v.kilometersPerSecond.Some? && v.kilometersPerHour.Some? && v.milesPerHour.Some?)
    ensures DecodeRelativeVelocityIntended(EncodeRelativeVelocity(v)) == v
  {
    if v != BlankRelativeVelocity {
      var fields := EncodeRelativeVelocity(v).fields;
      Dictionaries.LookupFirst(fields, 0);
      Dictionaries.LookupFirst(fields, 1);
      Dictionaries.LookupFirst(fields, 2);
    }
  }

  /** A velocity of 20 km/s, 72000 km/h and 44739 mph: decoding its JSON as
      the code does reports 20 as the mph figure. */
  lemma MilesPerHourLostAsWritten()
    ensures var v := RelativeVelocityModel(Some("20"), Some("72000"), Some("44739"));
      && DecodeRelativeVelocity(EncodeRelativeVelocity(v)).milesPerHour == Some("20")
      && DecodeRelativeVelocityIntended(EncodeRelativeVelocity(v)) == v
  {
    var v := RelativeVelocityModel(Some("20"), Some("72000"), Some("44739"));
    Dictionaries.LookupFirst(EncodeRelativeVelocity(v).fields, 0);
    IntendedRelativeVelocityRoundTrip(v);
  }
}
