# Near-Earth asteroid dashboard: a Dafny model

This project models the logic core of an iOS app that browses NASA's
near-Earth-object feed. The user picks a date range and the app fetches that
range's asteroids, grouped by day. It then shows a per-day count chart, the
fastest asteroid and the nearest asteroid. Two layers are modelled:

- **The decoded feed** (`AsteroidModel.swift`). The model classes become
  immutable datatypes with `Option` fields. Their `init(fromJSON:)`
  initialisers become decoding functions over a small JSON datatype
  (`json.dfy`, `asteroid_model.dfy`). Each decoder has an encoder partner
  and a round-trip lemma (`asteroid_encoding.dfy`).
- **The dashboard logic** (`DashboardViewController.swift`), lifted out of
  the view controller as pure functions (`dashboard.dfy`, `extrema.dfy`):
  - the request guard and its query parameters;
  - what the submit handler keeps after a response;
  - the per-day `(dates, counts)` series;
  - the fastest-asteroid scan (running maximum of the first approach's
    km/h), and what its label ends up showing;
  - the nearest-asteroid scan (running minimum of the first approach's miss
    distance, which resets whenever it holds `0.0`).

  Methods that follow the controller's nested loops are proved to compute
  these functions.

Swift leaves a `Dictionary`'s iteration order unspecified. A dictionary is
therefore modelled as the sequence of its `(key, value)` pairs in the order
a loop visits them (`dictionaries.dfy`). Every result that depends on the
order is stated relative to that sequence. The decoder is modelled as
keeping the JSON object's order (see "Left out"). The fastest velocity does not
depend on the order of the days, and neither does the nearest distance when
all distances are positive; both facts are proved.

Modelled assumptions:
- **JSON library (SwiftyJSON).** Only the accessor defaults the decoders rely
  on are written down, in `json.dfy`:
  - a missing key reads as null;
  - `stringValue` defaults to `""`, `intValue` to `0`, `arrayValue` to `[]`
    and `dictionaryValue` to an empty dictionary;
  - `isEmpty` holds for empty arrays and objects and for every scalar;
  - a parsed JSON object holds each key once. The `Obj` datatype does not
    enforce this, so the lemmas that need it take it as a hypothesis
    (`Dashboard.SubmittedDatesAreDistinct`).
- **`Double(text)!`** is a parameter `string -> Option<real>`. Every text the
  scans force-unwrap must parse; this is a precondition, because the source
  traps otherwise.

In four places the code departs from a cleaner design of the same feature.
The model follows the code:
- When nothing is found, the scans end on `("", 0.0)` rather than "none".
  The nearest label is written once after its loop, so it shows
  `("", 0.0)`. The fastest label is written at the end of every day that
  holds a list. A feed with no such day leaves it showing the previous
  fetch's result (`Dashboard.GetFastestAsteroid`), and an error body
  produces exactly such a feed.
- A successful HTTP response whose body is an upstream error object is not
  an error for the controller. It is decoded into an empty feed of count 0,
  which replaces the held one (`Dashboard.ErrorBodyLoadsEmptyFeed`).
- A distance or velocity text that does not parse is not skipped. It traps,
  so the model requires it to parse.
- A first-approach distance of exactly 0 km is taken and then forgotten at
  the next distance.

## Model

| member | source | states |
|---|---|---|
| `Dashboard.RequestParams` | NearEarthAsteroidApp/Controller/DashboardViewController.swift:100-124 | a query exists exactly when both date texts are non-empty; it then has exactly the keys `start_date`, `end_date` and `detailed`, `detailed` is `true`, and reading the range back gives the two dates |
| `Dashboard.Submit` | NearEarthAsteroidApp/Controller/DashboardViewController.swift:110-137 | the held model changes only when a request was made and the response succeeded, and it then becomes the model decoded from the body; with no request or a failed response it is unchanged |
| `Dashboard.ErrorBodyLoadsEmptyFeed` | NearEarthAsteroidApp/Controller/DashboardViewController.swift:111-116 | a successful response whose body is a non-empty object without `element_count` or `near_earth_objects` leaves a held model with count 0 and no days |
| `Dashboard.SubmittedDatesAreDistinct` | NearEarthAsteroidApp/Controller/DashboardViewController.swift:143-147 | after a successful submit whose `near_earth_objects` holds each key once, the chart's dates hold each date once |
| `Dashboard.SubmittedFeedHasNoNilDay` | NearEarthAsteroidApp/Controller/DashboardViewController.swift:143-147 | after a successful submit every day of the held feed has a list, so `value!` in the count loop never traps |
| `Dashboard.CountSeries` | NearEarthAsteroidApp/Controller/DashboardViewController.swift:141-149 | dates and counts have one entry per key, in iteration order: the dates are the keys and each count is that day's number of objects |
| `Dashboard.CountsSumToObjects` | NearEarthAsteroidApp/Controller/DashboardViewController.swift:141-149 | the counts add up to the number of objects the feed holds |
| `Dashboard.BuildCountSeries` | NearEarthAsteroidApp/Controller/DashboardViewController.swift:141-150 | the loop builds exactly the count series; the chart ends showing the whole series, or keeps its previous content when the feed has no day |
| `Dashboard.FastestAsteroid` | NearEarthAsteroidApp/Controller/DashboardViewController.swift:155-176 | if some first-approach velocity is positive, the result is the largest one, with the name of the first object in scan order that has it; otherwise it is `("", 0.0)` |
| `Dashboard.FastestOfDay` | NearEarthAsteroidApp/Controller/DashboardViewController.swift:161-171 | the loop over one day's objects continues the maximum scan from the current name and velocity |
| `Dashboard.GetFastestAsteroid` | NearEarthAsteroidApp/Controller/DashboardViewController.swift:155-176 | the nested loop over days and objects computes the fastest scan; the label keeps what it showed before when no day holds a list, and otherwise ends on the scan's result |
| `Dashboard.FastestUsesFirstApproachOnly` | NearEarthAsteroidApp/Controller/DashboardViewController.swift:164 | objects that agree on names and first approaches give the same fastest result, whatever their later approaches |
| `Dashboard.FastestSkipsObjectsWithoutVelocity` | NearEarthAsteroidApp/Controller/DashboardViewController.swift:160-170 | an object with no approaches, no first-approach velocity or no km/h text can be removed from anywhere in the scan without changing the result |
| `Dashboard.FastestVelocityIgnoresDayOrder` | NearEarthAsteroidApp/Controller/DashboardViewController.swift:159-169 | visiting the same days in another order gives the same fastest velocity |
| `Dashboard.NearestAsteroid` | NearEarthAsteroidApp/Controller/DashboardViewController.swift:179-200 | with no first-approach distance the result is `("", 0.0)`; with only positive distances it is the smallest, with the name of the first object in scan order that has it |
| `Dashboard.NearestOfDay` | NearEarthAsteroidApp/Controller/DashboardViewController.swift:185-195 | the loop over one day's objects continues the minimum scan, `== 0.0` reset included, from the current name and distance |
| `Dashboard.GetNearestAsteroid` | NearEarthAsteroidApp/Controller/DashboardViewController.swift:179-200 | the nested loop over days and objects computes the nearest scan, with its `== 0.0` reset; the label written after the loop shows that result |
| `Dashboard.NearestDistanceIgnoresDayOrder` | NearEarthAsteroidApp/Controller/DashboardViewController.swift:183-196 | with positive distances, visiting the same days in another order gives the same nearest distance |
| `Dashboard.DecodedVelocityPresence` | NearEarthAsteroidApp/Model/AsteroidModel.swift:52-74 | on decoded data an object is skipped by the fastest scan exactly when its JSON has no close approach, its first approach is empty, or that approach's `relative_velocity` is empty |
| `Extrema.MaxScanIsFirstMaximum` | NearEarthAsteroidApp/Controller/DashboardViewController.swift:157-169 | the strict `<` maximum scan seeded with `("", 0.0)` returns the seed when no reading is positive, and otherwise the first largest reading |
| `Extrema.MinScanIsFirstMinimum` | NearEarthAsteroidApp/Controller/DashboardViewController.swift:181-193 | with positive readings, the zero-seeded minimum scan returns the seed when there is no reading, and otherwise the first smallest reading |
| `Extrema.MinScanRestartsAfterZero` | NearEarthAsteroidApp/Controller/DashboardViewController.swift:190-193 | with non-negative readings, once a later reading exists, a reading of exactly `0.0` and everything before it have no effect on the result |
| `Extrema.MinScanZeroOnlyWhenLast` | NearEarthAsteroidApp/Controller/DashboardViewController.swift:190-193 | with non-negative readings, the scan reports `0.0` exactly when its last reading is `0.0`, and then reports that reading |
| `Extrema.MaxValueDependsOnlyOnValues` | NearEarthAsteroidApp/Controller/DashboardViewController.swift:166-168 | two reading sequences with the same set of values give the same maximum value |
| `Extrema.MinValueDependsOnlyOnValues` | NearEarthAsteroidApp/Controller/DashboardViewController.swift:190-192 | with positive readings, two sequences with the same set of values give the same minimum value |
| `AsteroidModel.DecodeAsteroids` | NearEarthAsteroidApp/Model/AsteroidModel.swift:16-31 | both fields are nil exactly when the input is empty; otherwise both are set, `element_count` is read as an integer, and the days are decoded from `near_earth_objects` |
| `AsteroidModel.DecodeFeed` | NearEarthAsteroidApp/Model/AsteroidModel.swift:22-30 | the decoded days have exactly the input object's keys, no key twice when the input has none twice, and every value is a non-nil list |
| `AsteroidModel.DecodeDay` | NearEarthAsteroidApp/Model/AsteroidModel.swift:25-28 | one decoded object per array element, in order; nothing is dropped |
| `AsteroidModel.DecodeNearEarthObject` | NearEarthAsteroidApp/Model/AsteroidModel.swift:43-58 | all fields are nil and the approach list is empty exactly when the input is empty; otherwise every string field and the diameter model are set |
| `AsteroidModel.DecodeCloseApproaches` | NearEarthAsteroidApp/Model/AsteroidModel.swift:52-57 | one decoded approach per `close_approach_data` element, in order |
| `AsteroidModel.DecodeCloseApproach` | NearEarthAsteroidApp/Model/AsteroidModel.swift:67-74 | all fields are nil exactly when the input is empty; otherwise the date is set and the velocity and distance sub-models are always built |
| `AsteroidModel.DecodeMissDistance` | NearEarthAsteroidApp/Model/AsteroidModel.swift:81-87 | both fields are nil exactly when the input is empty, and both are set otherwise |
| `AsteroidModel.DecodeRelativeVelocity` | NearEarthAsteroidApp/Model/AsteroidModel.swift:95-102 | all fields are nil exactly when the input is empty; otherwise all are set, and the mph field always equals the km/s field |
| `AsteroidModel.DecodeKiloMeters` | NearEarthAsteroidApp/Model/AsteroidModel.swift:110-116 | both diameters are nil exactly when the input is empty, and both are set otherwise |
| `AsteroidEncoding.RelativeVelocityRoundTrip` | NearEarthAsteroidApp/Model/AsteroidModel.swift:95-102 | a velocity whose mph text equals its km/s text survives encoding and decoding |
| `AsteroidEncoding.NearEarthObjectRoundTrip` | NearEarthAsteroidApp/Model/AsteroidModel.swift:43-58 | every object a decoder can produce survives encoding and decoding |
| `AsteroidEncoding.AsteroidsRoundTrip` | NearEarthAsteroidApp/Model/AsteroidModel.swift:10-31 | every feed model a decoder can produce survives encoding and decoding |
| `AsteroidEncoding.DecodeIsIdempotent` | NearEarthAsteroidApp/Model/AsteroidModel.swift:16-31 | decoding, re-encoding and decoding again gives the first decoding |
| `AsteroidEncoding.MilesPerHourMemberIgnored` | NearEarthAsteroidApp/Model/AsteroidModel.swift:99-101 | adding a `miles_per_hour` member to a non-empty velocity object does not change its decoding |
| `Intended.ZeroDistanceLostAsWritten` | NearEarthAsteroidApp/Controller/DashboardViewController.swift:190-193 | for distances 5, 0 and 3 km the code's scan reports 3 km, although 0 km is the first smallest |
| `Intended.NearestIsFirstMinimum` | NearEarthAsteroidApp/Controller/DashboardViewController.swift:181-193 | the scan seeded with "nothing yet" reports the first smallest reading for every input, and nothing when there is no reading |
| `Intended.NearestAgreesWhenPositive` | NearEarthAsteroidApp/Controller/DashboardViewController.swift:181-193 | with positive distances the code's scan and the corrected scan agree |
| `Intended.MilesPerHourLostAsWritten` | NearEarthAsteroidApp/Model/AsteroidModel.swift:101 | for 20 km/s, 72000 km/h and 44739 mph, decoding as the code does reports 20 as the mph figure, and the corrected decoder recovers the velocity |
| `Intended.IntendedRelativeVelocityRoundTrip` | NearEarthAsteroidApp/Model/AsteroidModel.swift:95-102 | with mph read from its own key, every populated velocity survives encoding and decoding |

## Findings

| source | as written | input that shows it | evidently intended | confidence | as-written member | corrected member |
|---|---|---|---|---|---|---|
| NearEarthAsteroidApp/Controller/DashboardViewController.swift:181-193 | the running minimum starts at `0.0` and is replaced whenever it equals `0.0`, so a real 0 km reading counts as "nothing found yet" | first-approach distances 5, 0, 3 km in scan order: the 3 km object is reported | report the first smallest distance, the 0 km object | medium (a 0 km miss distance is implausible in practice); not executed | `Intended.ZeroDistanceLostAsWritten` | `Intended.NearestIsFirstMinimum` |
| NearEarthAsteroidApp/Model/AsteroidModel.swift:101 | `miles_per_hour` is read from the `kilometers_per_second` key | `{"kilometers_per_second": "20", "kilometers_per_hour": "72000", "miles_per_hour": "44739"}`: the decoded mph is `"20"` | read the `miles_per_hour` key | high; not executed | `Intended.MilesPerHourLostAsWritten` | `Intended.IntendedRelativeVelocityRoundTrip` |

The dashboard functions and loop methods model the controller as written,
because that is the behaviour being described. The corrected scan
(`Intended.NearestFrom`) and the corrected decoder
(`Intended.DecodeRelativeVelocityIntended`) stand beside them. Nothing in the
dashboard reads the mph field.

## Left out

- The HTTP request (`NetworkManager.swift`): the response is a parameter of `Dashboard.Submit`, either a JSON body or a failure. The `message` it carries is never used by the handler.
- `UserDefaults` writes of the chosen dates (DashboardViewController.swift:108-109): external key-value persistence.
- UI: label texts, alert presentation, chart construction (`setUpChartView`), the date picker, toolbar and text-field delegate. Of the chart, only which series it ends up showing is modelled.
- `isUserInteractionEnabled` toggling and the `[weak self]` callback threading. Note that the view is disabled on every response and is never re-enabled after a failed one.
- The `print` calls inside the scans.
- `Double(_:)` parsing and its rounding: a parser parameter returning a real. NaN and infinities are not modelled.
- SwiftyJSON internals. The number-to-string rendering is carried as text inside `Num`. `intValue` of a string is modelled for an optional `-` followed by digits only. The overflow of `Int` truncation is not modelled.
- Date-field texts are modelled as strings. A nil `text` is not modelled.
- The unused `dateformatter` property of `AsteroidsModel` and the unused `Decodable` conformances.
- AsteroidModel.DecodeFeed: the decoded dictionary is modelled as iterating in the JSON object's order. The app inserts each date into a fresh Swift dictionary, which iterates in its own unspecified order, so the order of the chart's dates is not something the app promises. The scan results do not depend on this: they are stated for any order.
- Dashboard.NearestAsteroid: its contract covers only "no distance" and "all distances positive". Zero distances are covered by `Extrema.MinScanRestartsAfterZero` and `Extrema.MinScanZeroOnlyWhenLast`, which assume non-negative parsed distances (a miss distance is never negative).
- Dashboard.FastestVelocityIgnoresDayOrder: states that the velocity is order-independent, not the name; on ties the name does depend on the order.
- Dashboard.NearestDistanceIgnoresDayOrder: only for positive distances, since the `== 0.0` reset makes the result order-dependent otherwise.
