# NologyNav trip summary, modelled in Dafny

The NologyNav server asks the Google Directions API for a route between
an origin and a destination. From the JSON it gets back, the server derives
a short trip summary:
- the number of waypoints, counted as the steps of leg 0 (not the geocoded-waypoint count that `get_waypoints` returns);
- the distance, in miles when the API gives it in kilometres, otherwise as given;
- the duration text;
- the start and end coordinates;
- the transport modes;
- a sentence that puts these together.

When geocoding or routing fails, the server returns an error message instead.

This project models the two server modules that do this work:

- `google_api_handler.dfy` models `server/Google_API_Handler.py`. It holds:
  - the URL builder for the Directions endpoint;
  - the read-only accessors over the `routes → legs → steps` payload;
  - the scan for the first transit vehicle;
  - the walking and transit duration sums.
- `nologynav_methods.dfy` models `server/NologyNav_Methods.py`. It holds:
  - the summary fields;
  - the mode list (lower-cased, deduplicated, first seen first);
  - the summary sentence with its two `str.replace` calls;
  - the mapping of geocoder statuses to error messages.
- `directions.dfy` is the payload as datatypes. A field the API may omit is an `Option`.
- `text.dfy` holds the Python string operations the modules rely on: `in`, `lower()` and `replace()`. It also holds `Join`, the closed form of the `|`-join that the tuple loop of `url_builder` computes and is proved equal to, and `Split`, a reader added only to state the round-trip lemmas; the server itself never splits.

Python's `KeyError` and `IndexError` on the payload's fixed structure are
preconditions. For example, `HasLeg` says that `routes[0].legs[n]` exists.
Where Python tests for an optional field and returns `False`, the model
returns `None`.

Three points about the code that the contracts make explicit:

- `getUnit` returns the whole distance text of leg 0, number and unit
  (for example `"295 km"`).
- The error mapper is a separate `if` for "no driving route", followed by
  an `if`/`elif` chain over the two geocoder statuses. This behaves as one
  precedence chain: when both statuses are `OK`, neither is
  `ZERO_RESULTS`, so the chain never overwrites the driving-route
  message. The contract of `NologyNavMethods.RetrieveDataFromGoogle`
  states each case.
- `get_transit_mode` ends by reading step 0's `transit_details.line`. The
  loop only reaches that line when no step has a line, so the lookup
  always raises there. The model returns `None` on that path. The
  contract of `GoogleApiHandler.TransitMode` shows that `Some` comes only
  from a step that has a line.

## Model

| member | source | states |
|---|---|---|
| Text.Contains | server/NologyNav_Methods.py:17 | Python's `p in s`: some index where `p` occurs in `s` |
| Text.ReplaceAll | server/NologyNav_Methods.py:62 | `str.replace`: occurrences found left to right without overlap, replaced text not scanned again; never shorter than its input when the replacement is at least as long as the pattern, and the same length when the two are equally long |
| Text.Join | server/Google_API_Handler.py:28-31 | the `|`-join that the loop at lines 28-31 computes: the parts in order with one separator between neighbours |
| Text.Lower | server/NologyNav_Methods.py:45-47 | `lower()` keeps the length, maps each character, and leaves no upper-case ASCII letter |
| Text.ReplaceAbsent | server/NologyNav_Methods.py:62 | `replace` changes nothing when the pattern does not occur |
| Text.ReplaceSplit | server/NologyNav_Methods.py:62 | `replace` distributes over a concatenation whose boundary character is foreign to the pattern |
| Text.ReplaceWhole | server/NologyNav_Methods.py:62 | text that is exactly the pattern becomes exactly the replacement |
| Text.JoinAppend | server/Google_API_Handler.py:28-31 | joining one more part adds the separator and that part |
| Text.SplitJoin | server/Google_API_Handler.py:28-31 | the joined text is unambiguous: splitting it at the separator (a reader that is not part of the server) gives back the joined parts when no part holds the separator |
| GoogleApiHandler.Parameters | server/Google_API_Handler.py:23-32 | one `name=value` parameter per option, in option order, value verbatim |
| GoogleApiHandler.Query | server/Google_API_Handler.py:20-32 | the `urlOptions` text: empty exactly when there are no options, otherwise starting with `?`; its parameters are `Parameters` joined by `&` |
| GoogleApiHandler.QueryAppend | server/Google_API_Handler.py:23-26 | the first option is preceded by `?`, every later one by `&` |
| GoogleApiHandler.JoinTuple | server/Google_API_Handler.py:28-31 | appending `x|` per element then cutting the last character gives the `|`-join with no trailing `|`; splitting at `|` recovers the elements |
| GoogleApiHandler.UrlBuilder | server/Google_API_Handler.py:19-36 | the URL is the endpoint, the options in order, then `&key=` and the key; it starts with the endpoint and ends with `&key=<key>` |
| GoogleApiHandler.UrlShape | server/Google_API_Handler.py:21-36 | any query between the endpoint and `&key=<key>` keeps both ends fixed |
| GoogleApiHandler.UrlQueryMark | server/Google_API_Handler.py:20-36 | with no options the key follows the endpoint directly; otherwise `?` follows the endpoint |
| GoogleApiHandler.SingletonTupleIsScalar | server/Google_API_Handler.py:25-32 | a one-element tuple is sent exactly like the plain string |
| GoogleApiHandler.DecodeParameterRoundTrip | server/Google_API_Handler.py:26 | `name=value` reads back as the name and the value when the name has no `=` |
| GoogleApiHandler.QueryRoundTrip | server/Google_API_Handler.py:23-32 | reading the query back yields every option's name and value, in order, when no name holds `=` or `&` and no value holds `&` |
| GoogleApiHandler.AmpersandValueBreaksQuery | server/Google_API_Handler.py:26 | the value is not percent-encoded, so `origin=A&B` reads back as two parameters |
| GoogleApiHandler.NumRoutes | server/Google_API_Handler.py:62-63 | the number of routes |
| GoogleApiHandler.NumberOfRoutes | server/Google_API_Handler.py:38-39 | equals `get_num_routes` |
| GoogleApiHandler.RouteFound | server/Google_API_Handler.py:56-60 | true exactly when there is at least one route |
| GoogleApiHandler.Steps | server/Google_API_Handler.py:41-42 | the step list of the requested leg of route 0 |
| GoogleApiHandler.ArrivalTime | server/Google_API_Handler.py:44-48 | the leg's arrival time when present, `None` (Python's `False`) exactly when absent |
| GoogleApiHandler.DepartureTime | server/Google_API_Handler.py:50-54 | the leg's departure time when present, `None` exactly when absent |
| GoogleApiHandler.DurationValue | server/Google_API_Handler.py:65-66 | the leg's duration in seconds |
| GoogleApiHandler.DurationInTrafficValue | server/Google_API_Handler.py:68-72 | the traffic-aware seconds when present, `None` exactly when absent |
| GoogleApiHandler.DistanceText | server/Google_API_Handler.py:74-75 | leg 0's whole distance text |
| GoogleApiHandler.Waypoints | server/Google_API_Handler.py:77-81 | the fixed transit/waypoints error exactly when the payload has `error_message`, otherwise the number of geocoded waypoints |
| GoogleApiHandler.StartAddress | server/Google_API_Handler.py:83-84 | leg 0's start address |
| GoogleApiHandler.FallbackVehicle | server/Google_API_Handler.py:95 | step 0's vehicle name exists exactly when step 0 exists and has a transit line |
| GoogleApiHandler.TransitMode | server/Google_API_Handler.py:86-95 | `Some` exactly when some leg-0 step has a transit line, and then it is the vehicle name of the first such step |
| GoogleApiHandler.TravelMode | server/Google_API_Handler.py:97-101 | `TRANSIT` when route 0 has a fare, otherwise step 0's travel mode; the duration is always leg 0's |
| GoogleApiHandler.KindDuration | server/Google_API_Handler.py:108-112 | the sum of the durations of the steps that count as walking (nested `steps`) or as transit (`transit_details`) |
| GoogleApiHandler.KindDurationAppend | server/Google_API_Handler.py:108-112 | the walking or transit sum over two step lists is the sum of their sums |
| GoogleApiHandler.KindDurationRemove | server/Google_API_Handler.py:108-112 | taking one step out removes exactly its contribution |
| GoogleApiHandler.KindDurationPermutation | server/Google_API_Handler.py:108-112 | the walking and transit sums do not depend on the order of the steps |
| GoogleApiHandler.KindDurationBounded | server/Google_API_Handler.py:108-112 | with non-negative durations each sum lies between 0 and the sum of all step durations |
| GoogleApiHandler.TransitRoutePreferences | server/Google_API_Handler.py:103-114 | leg 0's duration, the summed durations of steps with nested `steps`, and the summed durations of steps with `transit_details` |
| NologyNavMethods.CountWaypoints | server/NologyNav_Methods.py:13-14 | the number of steps of leg 0 |
| NologyNavMethods.DistanceTravelled | server/NologyNav_Methods.py:16-20 | text without `km` is returned unchanged; text with `km` becomes the formatted miles followed by ` mi` |
| NologyNavMethods.TotalTime | server/NologyNav_Methods.py:22-23 | leg 0's duration text, verbatim |
| NologyNavMethods.LatLngPair | server/NologyNav_Methods.py:25-28 | leg 0's start location and end location, in that order |
| NologyNavMethods.Candidates | server/NologyNav_Methods.py:44-48 | every mode the loop offers, in step order, duplicates included: the lower-cased travel mode, then the lower-cased maneuver when it mentions `ferry`; at least one per step |
| NologyNavMethods.Dedup | server/NologyNav_Methods.py:45-48 | the `not in` tests of the loop: keeps the first occurrence of each element, is no longer than its input and holds only its elements |
| NologyNavMethods.FirstIndex | server/NologyNav_Methods.py:45-48 | the position of the first occurrence of a mode |
| NologyNavMethods.FirstIndexAppend | server/NologyNav_Methods.py:45-48 | appending does not move the first occurrence of a mode already present |
| NologyNavMethods.DedupSpec | server/NologyNav_Methods.py:45-48 | the deduplicated list holds exactly the offered modes, each once, ordered by first occurrence, and is no longer than its input |
| NologyNavMethods.CandidatesAppend | server/NologyNav_Methods.py:44-48 | one more step offers its travel mode, then its ferry maneuver if any |
| NologyNavMethods.CandidatesLength | server/NologyNav_Methods.py:44-48 | at most two modes are offered per step |
| NologyNavMethods.CandidatesCoverModes | server/NologyNav_Methods.py:45-46 | every step's lower-cased travel mode is offered |
| NologyNavMethods.CandidatesCoverFerry | server/NologyNav_Methods.py:47-48 | every step's lower-cased maneuver that mentions `ferry` is offered |
| NologyNavMethods.CandidatesOrigin | server/NologyNav_Methods.py:44-48 | every offered mode comes from some step |
| NologyNavMethods.DedupAppend | server/NologyNav_Methods.py:45-48 | an offered mode is appended exactly when it is not yet in the list |
| NologyNavMethods.DedupStep | server/NologyNav_Methods.py:45-48 | one iteration appends the travel mode, then the ferry maneuver, each only if new |
| NologyNavMethods.ModesOfTransportation | server/NologyNav_Methods.py:41-50 | no duplicates, first-seen order, every step's lower-cased travel mode present, every step's lower-cased ferry maneuver present, every element a travel mode or a ferry maneuver of some step, at most two per step |
| NologyNavMethods.ModesFacts | server/NologyNav_Methods.py:41-50 | the list has no duplicates, holds every travel mode and every ferry maneuver, holds only travel modes and ferry maneuvers, and has at most two entries per step |
| NologyNavMethods.Rewrite | server/NologyNav_Methods.py:62 | the two chained replacements, `ferry-train` by `an auto-train` first, then `ferry` by `a ferry`; the text never gets shorter |
| NologyNavMethods.Opening | server/NologyNav_Methods.py:53-54 | the first two statements of `summary`: duration, distance, waypoints and speed in their fixed words (spelled out by `OpeningText`) |
| NologyNavMethods.ModesSentence | server/NologyNav_Methods.py:56-61 | the modes clause chosen by the number of modes, using at most the first three (spelled out by `ModesSentenceText`) |
| NologyNavMethods.CoordinatesClause | server/NologyNav_Methods.py:63 | the start and end latitude and longitude in their fixed words, appended after the replacements |
| NologyNavMethods.SummaryText | server/NologyNav_Methods.py:52-64 | the replacements applied to the opening and the modes clause, then the coordinates clause (properties in `SummaryFieldwise` and `SummaryShape`) |
| NologyNavMethods.FillOne | server/NologyNav_Methods.py:57 | a template with one word and one field is the word followed by the field |
| NologyNavMethods.OpeningText | server/NologyNav_Methods.py:53-54 | the opening is `This journey will take <time> over <distance>, covering <waypoints> waypoints at an average speed of <speed>. ` |
| NologyNavMethods.ModesSentenceText | server/NologyNav_Methods.py:56-61 | one mode: `It will only require m0`; two: `In addition to m0, you will also need to use m1`; three or more: that followed by ` and m2` |
| NologyNavMethods.ModesSentenceFirstThree | server/NologyNav_Methods.py:60-61 | modes after the third never reach the sentence |
| NologyNavMethods.Summary | server/NologyNav_Methods.py:52-64 | the opening and the modes clause with both replacements applied, longer pattern first, followed by the coordinates clause |
| NologyNavMethods.SeparatorNotInFerry | server/NologyNav_Methods.py:62 | a character foreign to `ferry-train` is foreign to `ferry` |
| NologyNavMethods.RewriteSplit | server/NologyNav_Methods.py:62 | both replacements distribute over a boundary that a foreign character guards |
| NologyNavMethods.NoFeNoOccurrence | server/NologyNav_Methods.py:62 | text with no `f` followed by `e` holds neither pattern |
| NologyNavMethods.RewriteNoFe | server/NologyNav_Methods.py:62 | such text is left unchanged by both replacements |
| NologyNavMethods.RewriteAroundInert | server/NologyNav_Methods.py:62 | a fixed word of the sentence cuts the text into parts that are rewritten independently |
| NologyNavMethods.RewriteEach | server/NologyNav_Methods.py:62 | each mode rewritten on its own |
| NologyNavMethods.FillRewrite | server/NologyNav_Methods.py:53-62 | rewriting a sentence template rewrites each field on its own and keeps the words |
| NologyNavMethods.FillStart | server/NologyNav_Methods.py:54 | a filled template starts with its first word |
| NologyNavMethods.OpeningWordsInert | server/NologyNav_Methods.py:53-54 | the opening's words contain neither pattern and end in characters foreign to both |
| NologyNavMethods.ModesWordsInert | server/NologyNav_Methods.py:57-61 | the same for the words of the modes clause |
| NologyNavMethods.OpeningRewrite | server/NologyNav_Methods.py:53-62 | the replacements touch the opening only inside its four fields |
| NologyNavMethods.ModesSentenceRewrite | server/NologyNav_Methods.py:56-62 | the replacements touch the modes clause only inside the modes |
| NologyNavMethods.SummaryFieldwise | server/NologyNav_Methods.py:52-64 | the summary is the sentence built from the separately rewritten fields, followed by the coordinates clause verbatim |
| NologyNavMethods.SummaryShape | server/NologyNav_Methods.py:52-64 | the summary begins with the rewritten opening and ends with the coordinates clause, unrewritten |
| NologyNavMethods.RewriteFerryTrain | server/NologyNav_Methods.py:62 | `ferry-train` becomes `an auto-train`, which the second replacement leaves alone |
| NologyNavMethods.RewriteFerry | server/NologyNav_Methods.py:62 | `ferry` becomes `a ferry` |
| NologyNavMethods.RewriteDriving | server/NologyNav_Methods.py:62 | `driving` is left alone |
| NologyNavMethods.ModesSentenceRewriteThree | server/NologyNav_Methods.py:60-62 | with three or more modes, each of the first three is rewritten on its own inside the clause |
| NologyNavMethods.ModesSentenceAutoTrainThenFerry | server/NologyNav_Methods.py:60-62 | modes `driving`, `ferry-train`, `ferry` read `... use an auto-train and a ferry` |
| NologyNavMethods.ModesSentenceFerryThenAutoTrain | server/NologyNav_Methods.py:60-62 | modes `driving`, `ferry`, `ferry-train` read `... use a ferry and an auto-train` |
| NologyNavMethods.FerryInsideFerryTrain | server/NologyNav_Methods.py:62 | replacing `ferry` in `ferry-train` leaves a fresh `ferry-train` behind |
| NologyNavMethods.AutoTrainAfterArticle | server/NologyNav_Methods.py:62 | `a ferry-train` becomes `a an auto-train` under the first replacement |
| NologyNavMethods.ShorterPatternFirstGarbles | server/NologyNav_Methods.py:62 | with the replacements the other way round, `ferry-train` would become `a an auto-train`; this is why the longer pattern goes first |
| NologyNavMethods.NoDrivingRoute | server/NologyNav_Methods.py:76 | the driving-route message naming the origin and the destination |
| NologyNavMethods.RetrieveDataFromGoogle | server/NologyNav_Methods.py:73-87 | both geocoder statuses `ZERO_RESULTS`: origin-and-destination message; only the origin: origin message; only the destination: destination message; both `OK` with overall `ZERO_RESULTS`: the driving-route message naming origin and destination; in every other case the payload is returned unchanged |

## Left out

- The HTTP request and `response.json()` in `retrieve_navigation_payload`, and the fetch inside `retrieve_data_from_google`, are not modelled. They are network I/O. The mapper takes the parsed payload as a parameter.
- Loading the API key from the environment is not modelled. The key is a parameter of `UrlBuilder`.
- `avg_speed` is not modelled. It is floating-point arithmetic with rounding, and it can divide by zero. The summary receives the speed as text.
- NologyNavMethods.DistanceTravelled: the kilometre-to-mile arithmetic and the `'{:.1f}'` formatting are not modelled. They are floating point. The formatter is the parameter `formatMiles`, and the contract fixes only the branch and the ` mi` suffix.
- `str()` of the numbers and coordinates in the summary is not modelled. The fields arrive as text.
- Text.Lower: only ASCII letters are lower-cased. Python's `lower()` also covers the rest of Unicode.
- Leg numbers are natural numbers, so Python's negative indexing of legs is not modelled.
- The `print` calls in `get_transit_mode` are not modelled. They are logging only.
- The option dictionary of `url_builder` is an ordered sequence, and the model does not require its names to be distinct.
- GoogleApiHandler.UrlBuilder: a `list` option value is not modelled. Python joins only `tuple` values, and a list takes the plain-string branch and raises `TypeError` at the concatenation. `OptionValue.Tuple` stands for a tuple only.
- The inner loop that joins a tuple value is its own method, `JoinTuple`, which `UrlBuilder` calls.
- The Flask application in `server/NologyNav.py`, the React front end and the tests are not part of this model.
