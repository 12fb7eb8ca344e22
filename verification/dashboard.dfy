/** The logic of `DashboardViewController.swift`, lifted out of the view
    controller as pure functions over the decoded feed: the request guard
    and parameters, what the submit handler keeps, the per-day count
    series, and the fastest / nearest scans. The loop methods follow the
    controller's nested loops and are proved to compute the functions.

    Labels, the chart widget, alerts, persistence of the chosen dates and
    the network call itself are not modelled; the network's answer is a
    parameter of the submit handler. */
module Dashboard {
  import opened Wrappers
  import opened Dictionaries
  import opened Json
  import opened AsteroidModel
  import opened Extrema

  /** `Double(text)`: `None` when the text is not a number. The parser is
      a parameter of the model; its result is force-unwrapped, so the scans
      require it to succeed on every text they read. */
  type Parser = string -> Option<real>

  // ---------------------------------------------------------------------
  // Request and response

  datatype ParamValue = Text(s: string) | Flag(b: bool)

  /** The query of `asteroidAPI`: built only when both date fields are
      non-empty; `None` stands for the alert shown instead. */
  function RequestParams(startDate: string, endDate: string): (r: Option<map<string, ParamValue>>)
    ensures r.Some? <==> startDate != "" && endDate != ""
    ensures r.Some? ==> r.value.Keys == {"start_date", "end_date", "detailed"}
    ensures r.Some? ==> r.value["detailed"] == Flag(true)
    ensures r.Some? ==> RequestedRange(r.value) == Some((startDate, endDate))
  {
    if startDate != "" && endDate != "" then
      Some(map["start_date" := Text(startDate), "end_date" := Text(endDate), "detailed" := Flag(true)])
    else None
  }

  /** The date range a query asks for, read back from its parameters. */
  function RequestedRange(params: map<string, ParamValue>): Option<(string, string)> {
    if "start_date" in params && params["start_date"].Text?
       && "end_date" in params && params["end_date"].Text?
    then Some((params["start_date"].s, params["end_date"].s))
    else None
  }

  /** What the network layer hands back: a JSON body, or a failure. */
  datatype Response = Succeeded(body: Json) | Failed

  /** The submit handler's effect on the held `asteroidsObj`: with no
      request, or a failed one, it returns before the assignment; on success
      it holds the model decoded from the body, whatever the body says. */
  function Submit(held: Option<AsteroidsModel>, startDate: string, endDate: string, response: Response)
    : (r: Option<AsteroidsModel>)
    ensures r != held ==> RequestParams(startDate, endDate).Some? && response.Succeeded?
    ensures RequestParams(startDate, endDate).Some? && response.Succeeded? ==>
      r == Some(DecodeAsteroids(response.body))
  {
    if RequestParams(startDate, endDate).None? then held
    else match response
      case Failed => held
      case Succeeded(body) => Some(DecodeAsteroids(body))
  }

  // ---------------------------------------------------------------------
  // Views of the feed

  /** `asteroidsObj.nearEarthObjects ?? [:]`. */
  function FeedOf(a: AsteroidsModel): Feed {
    a.nearEarthObjects.GetOr([])
  }

  /** The objects the `if let asteroids = value` loop visits for one day. */
  function DayObjects(day: (string, Option<seq<NearEarthObjects>>)): seq<NearEarthObjects> {
    day.1.GetOr([])
  }

  /** Every object the scans visit, in scan order. */
  function Objects(feed: Feed): seq<NearEarthObjects> {
    if |feed| == 0 then []
    else Objects(feed[..|feed| - 1]) + DayObjects(feed[|feed| - 1])
  }

  lemma {:induction false} ObjectsAppend(a: Feed, b: Feed)
    ensures Objects(a + b) == Objects(a) + Objects(b)
  {
    if |b| == 0 {
      assert a + b == a;
    } else {
      assert (a + b)[..|a + b| - 1] == a + b[..|b| - 1];
      ObjectsAppend(a, b[..|b| - 1]);
    }
  }

  /** The objects of the first `i + 1` days are those of the first `i`
      days followed by day `i`, and all of them are objects of the feed. */
  lemma ObjectsOfPrefix(feed: Feed, i: int)
    requires 0 <= i < |feed|
    ensures Objects(feed[..i + 1]) == Objects(feed[..i]) + DayObjects(feed[i])
    ensures forall o :: o in Objects(feed[..i + 1]) ==> o in Objects(feed)
  {
    assert feed[..i + 1][..i] == feed[..i];
    PrefixObjectsWithin(feed, i + 1);
  }

  lemma PrefixObjectsWithin(feed: Feed, n: int)
    requires 0 <= n <= |feed|
    ensures forall o :: o in Objects(feed[..n]) ==> o in Objects(feed)
  {
    assert feed == feed[..n] + feed[n..];
    ObjectsAppend(feed[..n], feed[n..]);
  }

  // ---------------------------------------------------------------------
  // Readings of the first close approach

  /** Which value of the first close approach a scan reads. */
  datatype Quantity = KilometersPerHour | MissKilometers

  /** `closeApproachData.first?.relative_velocity?.kilometers_per_hour`, or
      `closeApproachData.first?.miss_distance?.kilometers`. */
  function FirstApproachText(o: NearEarthObjects, q: Quantity): Option<string> {
    if |o.closeApproachData| == 0 then None
    else
      var first := o.closeApproachData[0];
      match q
      case KilometersPerHour =>
        if first.relativeVelocity.Some? then first.relativeVelocity.value.kilometersPerHour else None
      case MissKilometers =>
        if first.missDistance.Some? then first.missDistance.value.kilometers else None
  }

  predicate TextParses(o: NearEarthObjects, q: Quantity, parse: Parser) {
    FirstApproachText(o, q).Some? ==> parse(FirstApproachText(o, q).value).Some?
  }

  /** Every text the scan force-unwraps is a number. */
  predicate AllParse(objs: seq<NearEarthObjects>, q: Quantity, parse: Parser) {
    forall o :: o in objs ==> TextParses(o, q, parse)
  }

  /** The reading an object contributes: skipped when its first approach
      has no text, otherwise its name (`asteroid.name ?? ""`) and value. */
  function Reading(o: NearEarthObjects, q: Quantity, parse: Parser): (r: Option<Extremum>)
    requires TextParses(o, q, parse)
  {
    match FirstApproachText(o, q)
    case None => None
    case Some(text) => Some(Extremum(o.name.GetOr(""), parse(text).value))
  }

  function ReadingsOf(objs: seq<NearEarthObjects>, q: Quantity, parse: Parser): (rs: Readings)
    requires AllParse(objs, q, parse)
    ensures |rs| == |objs|
    ensures forall k :: 0 <= k < |objs| ==> rs[k] == Reading(objs[k], q, parse)
  {
    seq(|objs|, k requires 0 <= k < |objs| => Reading(objs[k], q, parse))
  }

  lemma ReadingsOfAppend(a: seq<NearEarthObjects>, b: seq<NearEarthObjects>, q: Quantity, parse: Parser)
    requires AllParse(a, q, parse) && AllParse(b, q, parse)
    ensures AllParse(a + b, q, parse)
    ensures ReadingsOf(a + b, q, parse) == ReadingsOf(a, q, parse) + ReadingsOf(b, q, parse)
  {
  }

  // ---------------------------------------------------------------------
  // Fastest and nearest

  /** `getFastestAsteroid`: the first largest positive first-approach
      velocity in scan order, or `("", 0.0)` if no velocity beats the seed. */
  function FastestAsteroid(a: AsteroidsModel, parse: Parser): (r: Extremum)
    requires AllParse(Objects(FeedOf(a)), KilometersPerHour, parse)
    ensures var rs := ReadingsOf(Objects(FeedOf(a)), KilometersPerHour, parse);
      && (!HasPositive(rs) ==> r == Seed)
      && (HasPositive(rs) ==> exists k :: IsFirstMaximum(rs, k) && r == rs[k].value)
  {
    var rs := ReadingsOf(Objects(FeedOf(a)), KilometersPerHour, parse);
    MaxScanIsFirstMaximum(rs);
    MaxFrom(Seed, rs)
  }

  /** `getNearestAsteroid`: `("", 0.0)` with no distance at all, and the
      first smallest distance when all distances are positive. Zero
      distances reset the scan (see `Extrema.MinScanRestartsAfterZero`). */
  function NearestAsteroid(a: AsteroidsModel, parse: Parser): (r: Extremum)
    requires AllParse(Objects(FeedOf(a)), MissKilometers, parse)
    ensures var rs := ReadingsOf(Objects(FeedOf(a)), MissKilometers, parse);
      && (!HasReading(rs) ==> r == Seed)
      && (AllPositive(rs) && HasReading(rs) ==> exists k :: IsFirstMinimum(rs, k) && r == rs[k].value)
  {
    var rs := ReadingsOf(Objects(FeedOf(a)), MissKilometers, parse);
    MinScanFacts(rs);
    MinFrom(Seed, rs)
  }

  lemma MinScanFacts(rs: Readings)
    ensures !HasReading(rs) ==> MinFrom(Seed, rs) == Seed
    ensures AllPositive(rs) && HasReading(rs) ==> exists k :: IsFirstMinimum(rs, k) && MinFrom(Seed, rs) == rs[k].value
  {
    if !HasReading(rs) { MinFromNoReadings(Seed, rs); }
    if AllPositive(rs) { MinScanIsFirstMinimum(rs); }
  }

  /** Only the first close approach matters: two object lists that agree on
      names and first approaches give the same fastest result, whatever
      their later approaches. */
  lemma FastestUsesFirstApproachOnly(objs: seq<NearEarthObjects>, objs': seq<NearEarthObjects>, parse: Parser)
    requires |objs| == |objs'|
    requires forall k :: 0 <= k < |objs| ==>
      && objs[k].name == objs'[k].name
      && |objs[k].closeApproachData| > 0 && |objs'[k].closeApproachData| > 0
      && objs[k].closeApproachData[0] == objs'[k].closeApproachData[0]
    requires AllParse(objs, KilometersPerHour, parse)
    ensures AllParse(objs', KilometersPerHour, parse)
    ensures MaxFrom(Seed, ReadingsOf(objs, KilometersPerHour, parse))
         == MaxFrom(Seed, ReadingsOf(objs', KilometersPerHour, parse))
  {
    forall o' | o' in objs' ensures TextParses(o', KilometersPerHour, parse) {
      var k :| 0 <= k < |objs'| && objs'[k] == o';
      assert TextParses(objs[k], KilometersPerHour, parse);
    }
    assert ReadingsOf(objs, KilometersPerHour, parse) == ReadingsOf(objs', KilometersPerHour, parse);
  }

  /** An object without a first-approach velocity (no approaches, or no
      velocity in the first) can be dropped from anywhere in the scan. */
  lemma FastestSkipsObjectsWithoutVelocity(before: seq<NearEarthObjects>, o: NearEarthObjects,
                                           after: seq<NearEarthObjects>, parse: Parser)
    requires AllParse(before + after, KilometersPerHour, parse)
    requires |o.closeApproachData| == 0
          || o.closeApproachData[0].relativeVelocity.None?
          || o.closeApproachData[0].relativeVelocity.value.kilometersPerHour.None?
    ensures AllParse(before + [o] + after, KilometersPerHour, parse)
    ensures MaxFrom(Seed, ReadingsOf(before + [o] + after, KilometersPerHour, parse))
         == MaxFrom(Seed, ReadingsOf(before + after, KilometersPerHour, parse))
  {
    var q := KilometersPerHour;
    assert AllParse(before, q, parse) && AllParse(after, q, parse);
    ReadingsOfAppend(before, [o], q, parse);
    ReadingsOfAppend(before + [o], after, q, parse);
    ReadingsOfAppend(before, after, q, parse);
    var rb, ra := ReadingsOf(before, q, parse), ReadingsOf(after, q, parse);
    assert ReadingsOf([o], q, parse) == [None];
    MaxFromAppend(Seed, rb + [None], ra);
    MaxFromAppend(Seed, rb, ra);
    assert (rb + [None])[..|rb|] == rb;
  }

  /** An object is scanned exactly when it is listed under some day. */
  lemma {:induction false} ObjectsMembership(feed: Feed, o: NearEarthObjects)
    ensures o in Objects(feed) <==> exists i :: 0 <= i < |feed| && o in DayObjects(feed[i])
  {
    if |feed| > 0 {
      var n := |feed| - 1;
      ObjectsMembership(feed[..n], o);
      assert forall i :: 0 <= i < n ==> feed[..n][i] == feed[i];
    }
  }

  /** Readings of objects that all occur in `objs'` have their values among
      the readings of `objs'`. */
  lemma ReadingsWithin(objs: seq<NearEarthObjects>, objs': seq<NearEarthObjects>, q: Quantity, parse: Parser)
    requires forall o :: o in objs ==> o in objs'
    requires AllParse(objs', q, parse)
    ensures AllParse(objs, q, parse)
    ensures Values(ReadingsOf(objs, q, parse)) <= Values(ReadingsOf(objs', q, parse))
  {
    var rs, rs' := ReadingsOf(objs, q, parse), ReadingsOf(objs', q, parse);
    forall x | x in Values(rs) ensures x in Values(rs') {
      var k :| 0 <= k < |rs| && rs[k].Some? && rs[k].value.value == x;
      assert objs[k] in objs;
      var k' :| 0 <= k' < |objs'| && objs'[k'] == objs[k];
      assert rs'[k'] == rs[k];
    }
  }

  /** Two feeds holding the same days, in any order. */
  ghost predicate SameDays(feed: Feed, feed': Feed) {
    (forall i :: 0 <= i < |feed| ==> feed[i] in feed')
    && (forall i :: 0 <= i < |feed'| ==> feed'[i] in feed)
  }

  lemma SameObjects(feed: Feed, feed': Feed)
    requires SameDays(feed, feed')
    ensures forall o :: o in Objects(feed) ==> o in Objects(feed')
  {
    forall o | o in Objects(feed) ensures o in Objects(feed') {
      ObjectsMembership(feed, o);
      ObjectsMembership(feed', o);
      var i :| 0 <= i < |feed| && o in DayObjects(feed[i]);
      var i' :| 0 <= i' < |feed'| && feed'[i'] == feed[i];
    }
  }

  /** The fastest velocity reported does not depend on the order in which
      the dictionary's days are visited; only the name can, on ties. */
  lemma FastestVelocityIgnoresDayOrder(a: AsteroidsModel, a': AsteroidsModel, parse: Parser)
    requires SameDays(FeedOf(a), FeedOf(a'))
    requires AllParse(Objects(FeedOf(a)), KilometersPerHour, parse)
    ensures AllParse(Objects(FeedOf(a')), KilometersPerHour, parse)
    ensures FastestAsteroid(a', parse).value == FastestAsteroid(a, parse).value
  {
    var objs, objs' := Objects(FeedOf(a)), Objects(FeedOf(a'));
    SameObjects(FeedOf(a'), FeedOf(a));
    SameObjects(FeedOf(a), FeedOf(a'));
    ReadingsWithin(objs', objs, KilometersPerHour, parse);
    ReadingsWithin(objs, objs', KilometersPerHour, parse);
    MaxValueDependsOnlyOnValues(ReadingsOf(objs, KilometersPerHour, parse), ReadingsOf(objs', KilometersPerHour, parse));
  }

  /** With positive distances, the nearest distance reported does not
      depend on the order of the days either. */
  lemma NearestDistanceIgnoresDayOrder(a: AsteroidsModel, a': AsteroidsModel, parse: Parser)
    requires SameDays(FeedOf(a), FeedOf(a'))
    requires AllParse(Objects(FeedOf(a)), MissKilometers, parse)
    requires AllPositive(ReadingsOf(Objects(FeedOf(a)), MissKilometers, parse))
    ensures AllParse(Objects(FeedOf(a')), MissKilometers, parse)
    ensures NearestAsteroid(a', parse).value == NearestAsteroid(a, parse).value
  {
    var q := MissKilometers;
    var objs, objs' := Objects(FeedOf(a)), Objects(FeedOf(a'));
    SameObjects(FeedOf(a'), FeedOf(a));
    SameObjects(FeedOf(a), FeedOf(a'));
    ReadingsWithin(objs', objs, q, parse);
    ReadingsWithin(objs, objs', q, parse);
    var rs, rs' := ReadingsOf(objs, q, parse), ReadingsOf(objs', q, parse);
    assert AllPositive(rs') by {
      forall k | IsReading(rs', k) ensures rs'[k].value.value > 0.0 {
        assert rs'[k].value.value in Values(rs');
        var k0 :| 0 <= k0 < |rs| && rs[k0].Some? && rs[k0].value.value == rs'[k].value.value;
        assert IsReading(rs, k0);
      }
    }
    MinValueDependsOnlyOnValues(rs, rs');
  }

  /** On decoded data an object is skipped by the fastest scan exactly when
      its JSON has no close approach, or its first approach is empty, or
      that approach's `relative_velocity` is empty. */
  lemma DecodedVelocityPresence(j: Json)
    ensures var items := ArrayValue(Member(j, "close_approach_data"));
      FirstApproachText(DecodeNearEarthObject(j), KilometersPerHour).None? <==>
        (|items| == 0 || IsEmpty(items[0]) || IsEmpty(Member(items[0], "relative_velocity")))
  {
  }

  // ---------------------------------------------------------------------
  // The per-day count series

  datatype Series = Series(dates: seq<string>, counts: seq<int>)

  predicate NoNilDay(feed: Feed) {
    forall i :: 0 <= i < |feed| ==> feed[i].1.Some?
  }

  /** The `(dates, asteroidsCount)` pair built by the submit handler: one
      entry per key in iteration order, counting that day's objects
      (`value!.count`, which requires every day to hold a list). */
  function CountSeries(feed: Feed): (r: Series)
    requires NoNilDay(feed)
    ensures |r.dates| == |r.counts| == |feed|
    ensures r.dates == Keys(feed)
    ensures forall i :: 0 <= i < |feed| ==> r.counts[i] == |feed[i].1.value|
  {
    if |feed| == 0 then Series([], [])
    else
      var s := CountSeries(feed[..|feed| - 1]);
      Series(s.dates + [feed[|feed| - 1].0], s.counts + [|feed[|feed| - 1].1.value|])
  }

  function Sum(xs: seq<int>): int {
    if |xs| == 0 then 0 else Sum(xs[..|xs| - 1]) + xs[|xs| - 1]
  }

  /** The counts add up to the number of objects in the feed. */
  lemma {:induction false} CountsSumToObjects(feed: Feed)
    requires NoNilDay(feed)
    ensures Sum(CountSeries(feed).counts) == |Objects(feed)|
  {
    if |feed| > 0 {
      var n := |feed| - 1;
      CountsSumToObjects(feed[..n]);
      var c := CountSeries(feed).counts;
      assert c[..n] == CountSeries(feed[..n]).counts;
    }
  }

  /** A decoded feed never holds a nil day, so the handler's `value!` never
      traps on what `Submit` stores. */
  lemma SubmittedFeedHasNoNilDay(held: Option<AsteroidsModel>, startDate: string, endDate: string, body: Json)
    requires startDate != "" && endDate != ""
    ensures Submit(held, startDate, endDate, Succeeded(body)).Some?
    ensures NoNilDay(FeedOf(Submit(held, startDate, endDate, Succeeded(body)).value))
  {
  }

  /** When the body's `near_earth_objects` object has no repeated key, as
      every parsed JSON dictionary does, the chart gets each date once. */
  lemma SubmittedDatesAreDistinct(held: Option<AsteroidsModel>, startDate: string, endDate: string, body: Json)
    requires startDate != "" && endDate != ""
    requires DistinctKeys(DictionaryValue(Member(body, "near_earth_objects")))
    ensures var feed := FeedOf(Submit(held, startDate, endDate, Succeeded(body)).value);
      && NoNilDay(feed)
      && forall i, j :: 0 <= i < j < |feed| ==> CountSeries(feed).dates[i] != CountSeries(feed).dates[j]
  {
  }

  /** A successful response whose body is an error object (any non-empty
      object without `element_count` and `near_earth_objects`) replaces the
      held model with an empty feed of count 0: the controller does not
      treat it as an error. */
  lemma ErrorBodyLoadsEmptyFeed(held: Option<AsteroidsModel>, startDate: string, endDate: string,
                                fields: seq<(string, Json)>)
    requires startDate != "" && endDate != ""
    requires |fields| > 0
    requires "element_count" !in Keys(fields) && "near_earth_objects" !in Keys(fields)
    ensures Submit(held, startDate, endDate, Succeeded(Obj(fields))) == Some(AsteroidsModel(Some(0), Some([])))
  {
    LookupFindsKeys(fields, "element_count");
    LookupFindsKeys(fields, "near_earth_objects");
  }

  // ---------------------------------------------------------------------
  // The controller's loops

  /** One object further into a day: both scans, continued from any
      current extremum, take one step. */
  lemma ScanStep(day: seq<NearEarthObjects>, j: int, q: Quantity, parse: Parser, acc: Extremum)
    requires AllParse(day, q, parse)
    requires 0 <= j < |day|
    ensures AllParse(day[..j], q, parse) && AllParse(day[..j + 1], q, parse)
    ensures MaxFrom(acc, ReadingsOf(day[..j + 1], q, parse))
         == MaxStep(MaxFrom(acc, ReadingsOf(day[..j], q, parse)), Reading(day[j], q, parse))
    ensures MinFrom(acc, ReadingsOf(day[..j + 1], q, parse))
         == MinStep(MinFrom(acc, ReadingsOf(day[..j], q, parse)), Reading(day[j], q, parse))
  {
    assert day[..j + 1] == day[..j] + [day[j]];
    assert AllParse(day[..j], q, parse);
    var before := ReadingsOf(day[..j], q, parse);
    var after := ReadingsOf(day[..j + 1], q, parse);
    assert after[..|after| - 1] == before;
  }

  /** One day further into the feed: both scans over the first `i + 1`
      days are the scans over the first `i` days, continued over day `i`. */
  lemma DayStep(feed: Feed, i: int, q: Quantity, parse: Parser)
    requires AllParse(Objects(feed), q, parse)
    requires 0 <= i < |feed|
    ensures AllParse(Objects(feed[..i]), q, parse) && AllParse(DayObjects(feed[i]), q, parse)
    ensures AllParse(Objects(feed[..i + 1]), q, parse)
    ensures MaxFrom(Seed, ReadingsOf(Objects(feed[..i + 1]), q, parse))
         == MaxFrom(MaxFrom(Seed, ReadingsOf(Objects(feed[..i]), q, parse)), ReadingsOf(DayObjects(feed[i]), q, parse))
    ensures MinFrom(Seed, ReadingsOf(Objects(feed[..i + 1]), q, parse))
         == MinFrom(MinFrom(Seed, ReadingsOf(Objects(feed[..i]), q, parse)), ReadingsOf(DayObjects(feed[i]), q, parse))
  {
    ObjectsOfPrefix(feed, i);
    var seen := Objects(feed[..i]);
    var day := DayObjects(feed[i]);
    assert AllParse(seen + day, q, parse);
    assert AllParse(seen, q, parse) && AllParse(day, q, parse);
    ReadingsOfAppend(seen, day, q, parse);
    MaxFromAppend(Seed, ReadingsOf(seen, q, parse), ReadingsOf(day, q, parse));
    MinFromAppend(Seed, ReadingsOf(seen, q, parse), ReadingsOf(day, q, parse));
  }

  /** Some day of the feed holds a list, so `if let asteroids = value`
      runs its body at least once. */
  predicate HasDayList(feed: Feed) {
    exists k :: 0 <= k < |feed| && feed[k].1.Some?
  }

  lemma HasDayListStep(feed: Feed, i: int)
    requires 0 <= i < |feed|
    ensures HasDayList(feed[..i + 1]) <==> HasDayList(feed[..i]) || feed[i].1.Some?
  {
  }

  /** The inner loop of `getFastestAsteroid` over one day's objects: it
      continues the maximum scan from the current values. */
  method FastestOfDay(asteroids: seq<NearEarthObjects>, parse: Parser, name: string, velocity: real)
    returns (fastestAsteroid: string, highestVelocity: real)
    requires AllParse(asteroids, KilometersPerHour, parse)
    ensures Extremum(fastestAsteroid, highestVelocity)
         == MaxFrom(Extremum(name, velocity), ReadingsOf(asteroids, KilometersPerHour, parse))
  {
    var q := KilometersPerHour;
    ghost var start := Extremum(name, velocity);
    fastestAsteroid, highestVelocity := name, velocity;
    var j := 0;
    while j < |asteroids|
      invariant 0 <= j <= |asteroids|
      invariant AllParse(asteroids[..j], q, parse)
      invariant Extremum(fastestAsteroid, highestVelocity) == MaxFrom(start, ReadingsOf(asteroids[..j], q, parse))
    {
      var asteroid := asteroids[j];
      assert TextParses(asteroid, q, parse);
      ghost var current := Extremum(fastestAsteroid, highestVelocity);
      match FirstApproachText(asteroid, q) {
        case Some(velocity) =>
          var distance := parse(velocity).value;
          if highestVelocity < distance {
            highestVelocity := distance;
            fastestAsteroid := asteroid.name.GetOr("");
          }
        case None =>
      }
      assert Extremum(fastestAsteroid, highestVelocity) == MaxStep(current, Reading(asteroid, q, parse));
      ScanStep(asteroids, j, q, parse, start);
      j := j + 1;
    }
    assert asteroids[..j] == asteroids;
  }

  /** `getFastestAsteroid`. The label is written at the end of every day
      that holds a list, so it keeps what it showed before (`shown`) when
      no day does, and otherwise ends on the scan's result. */
  method GetFastestAsteroid(a: AsteroidsModel, parse: Parser, shown: Option<Extremum>)
    returns (fastestAsteroid: string, highestVelocity: real, onScreen: Option<Extremum>)
    requires AllParse(Objects(FeedOf(a)), KilometersPerHour, parse)
    ensures Extremum(fastestAsteroid, highestVelocity) == FastestAsteroid(a, parse)
    ensures !HasDayList(FeedOf(a)) ==> onScreen == shown
    ensures HasDayList(FeedOf(a)) ==> onScreen == Some(FastestAsteroid(a, parse))
  {
    var q := KilometersPerHour;
    var feed := FeedOf(a);
    highestVelocity := 0.0;
    fastestAsteroid := "";
    onScreen := shown;
    var i := 0;
    while i < |feed|
      invariant 0 <= i <= |feed|
      invariant AllParse(Objects(feed[..i]), q, parse)
      invariant Extremum(fastestAsteroid, highestVelocity) == MaxFrom(Seed, ReadingsOf(Objects(feed[..i]), q, parse))
      invariant !HasDayList(feed[..i]) ==> onScreen == shown
      invariant HasDayList(feed[..i]) ==> onScreen == Some(Extremum(fastestAsteroid, highestVelocity))
    {
      DayStep(feed, i, q, parse);
      HasDayListStep(feed, i);
      match feed[i].1 {
        case Some(asteroids) =>
          fastestAsteroid, highestVelocity := FastestOfDay(asteroids, parse, fastestAsteroid, highestVelocity);
          onScreen := Some(Extremum(fastestAsteroid, highestVelocity));
        case None =>
      }
      i := i + 1;
    }
    assert feed[..i] == feed;
  }

  /** The inner loop of `getNearestAsteroid` over one day's objects: it
      continues the minimum scan, `== 0.0` reset included, from the
      current values. */
  method NearestOfDay(asteroids: seq<NearEarthObjects>, parse: Parser, name: string, distance: real)
    returns (nearestAsteroid: string, nearestAsteroidDistance: real)
    requires AllParse(asteroids, MissKilometers, parse)
    ensures Extremum(nearestAsteroid, nearestAsteroidDistance)
         == MinFrom(Extremum(name, distance), ReadingsOf(asteroids, MissKilometers, parse))
  {
    var q := MissKilometers;
    ghost var start := Extremum(name, distance);
    nearestAsteroid, nearestAsteroidDistance := name, distance;
    var j := 0;
    while j < |asteroids|
      invariant 0 <= j <= |asteroids|
      invariant AllParse(asteroids[..j], q, parse)
      invariant Extremum(nearestAsteroid, nearestAsteroidDistance) == MinFrom(start, ReadingsOf(asteroids[..j], q, parse))
    {
      var asteroid := asteroids[j];
      assert TextParses(asteroid, q, parse);
      ghost var current := Extremum(nearestAsteroid, nearestAsteroidDistance);
      match FirstApproachText(asteroid, q) {
        case Some(text) =>
          var nearestDist := parse(text).value;
          if nearestAsteroidDistance > nearestDist || nearestAsteroidDistance == 0.0 {
            nearestAsteroidDistance := nearestDist;
            nearestAsteroid := asteroid.name.GetOr("");
          }
        case None =>
      }
      assert Extremum(nearestAsteroid, nearestAsteroidDistance) == MinStep(current, Reading(asteroid, q, parse));
      ScanStep(asteroids, j, q, parse, start);
      j := j + 1;
    }
    assert asteroids[..j] == asteroids;
  }

  /** `getNearestAsteroid`. Its label is written once, after the loop, so
      it always shows the scan's result, `("", 0.0)` included. */
  method GetNearestAsteroid(a: AsteroidsModel, parse: Parser) returns (nearestAsteroid: string, nearestAsteroidDistance: real)
    requires AllParse(Objects(FeedOf(a)), MissKilometers, parse)
    ensures Extremum(nearestAsteroid, nearestAsteroidDistance) == NearestAsteroid(a, parse)
  {
    var q := MissKilometers;
    var feed := FeedOf(a);
    nearestAsteroidDistance := 0.0;
    nearestAsteroid := "";
    var i := 0;
    while i < |feed|
      invariant 0 <= i <= |feed|
      invariant AllParse(Objects(feed[..i]), q, parse)
      invariant Extremum(nearestAsteroid, nearestAsteroidDistance) == MinFrom(Seed, ReadingsOf(Objects(feed[..i]), q, parse))
    {
      DayStep(feed, i, q, parse);
      match feed[i].1 {
        case Some(asteroids) =>
          nearestAsteroid, nearestAsteroidDistance := NearestOfDay(asteroids, parse, nearestAsteroid, nearestAsteroidDistance);
        case None =>
      }
      i := i + 1;
    }
    assert feed[..i] == feed;
  }

  /** The loop of the submit handler: appends one date and one count per
      key and redraws the chart after each key, so the chart ends showing
      the whole series, or keeps what it showed before when the feed has
      no day at all. */
  method BuildCountSeries(a: AsteroidsModel, shown: Option<Series>)
    returns (dates: seq<string>, asteroidsCount: seq<int>, chart: Option<Series>)
    requires NoNilDay(FeedOf(a))
    ensures Series(dates, asteroidsCount) == CountSeries(FeedOf(a))
    ensures chart == if |FeedOf(a)| == 0 then shown else Some(Series(dates, asteroidsCount))
  {
    var feed := FeedOf(a);
    dates := [];
    asteroidsCount := [];
    chart := shown;
    var i := 0;
    while i < |feed|
      invariant 0 <= i <= |feed|
      invariant Series(dates, asteroidsCount) == CountSeries(feed[..i])
      invariant chart == if i == 0 then shown else Some(Series(dates, asteroidsCount))
    {
      assert feed[..i + 1][..i] == feed[..i];
      dates := dates + [feed[i].0];
      asteroidsCount := asteroidsCount + [|feed[i].1.value|];
      chart := Some(Series(dates, asteroidsCount));
      i := i + 1;
    }
    assert feed[..i] == feed;
  }
}
