/** server/Google_API_Handler.py: the query-string builder for the
    Directions endpoint and the read-only accessors over its response.
    The HTTP call and the environment lookup of the key are not modelled:
    the key is a parameter. */
module GoogleApiHandler {
  import opened Text
  import opened Directions

  // ---------------------------------------------------------------------
  // url_builder
  // ---------------------------------------------------------------------

  const DirectionsEndpoint := "https://maps.googleapis.com/maps/api/directions/json"

  /** An option's value: a plain string, or a tuple of strings that is
      sent `|`-separated. */
  datatype OptionValue = Scalar(text: string) | Tuple(parts: seq<string>)

  /** One entry of the ordered option dictionary. */
  datatype QueryOption = QueryOption(name: string, value: OptionValue)

  /** The value as it appears in the URL: verbatim, never percent-encoded. */
  function ValueText(v: OptionValue): string
  {
    match v
    case Scalar(s) => s
    case Tuple(parts) => Join(parts, '|')
  }

  function Parameter(o: QueryOption): string
  {
    o.name + "=" + ValueText(o.value)
  }

  function Parameters(options: seq<QueryOption>): (ps: seq<string>)
    ensures |ps| == |options|
    ensures forall i :: 0 <= i < |options| ==> ps[i] == Parameter(options[i])
  {
    seq(|options|, i requires 0 <= i < |options| => Parameter(options[i]))
  }

  /** The query component: nothing for no options, otherwise `?` followed
      by the `name=value` parameters separated by `&`. */
  function Query(options: seq<QueryOption>): (q: string)
    ensures |q| == 0 <==> options == []
    ensures options != [] ==> q[0] == '?'
  {
    if options == [] then "" else "?" + Join(Parameters(options), '&')
  }

  /** Adding an option extends the query by `?` (first) or `&` (later) and
      its parameter. */
  lemma QueryAppend(options: seq<QueryOption>, o: QueryOption)
    ensures Query(options + [o])
         == Query(options) + (if options == [] then "?" else "&") + Parameter(o)
  {
    if options == [] {
      assert Parameters([o]) == [Parameter(o)];
    } else {
      assert Parameters(options + [o]) == Parameters(options) + [Parameter(o)];
      JoinAppend(Parameters(options), Parameter(o), '&');
    }
  }

  /** The inner loop of url_builder: each element followed by `|`, then
      the last character cut off (which leaves an empty text empty). */
  method JoinTuple(parts: seq<string>) returns (optionList: string)
    ensures optionList == Join(parts, '|')
    ensures |parts| > 0 && (forall i :: 0 <= i < |parts| ==> '|' !in parts[i])
            ==> Split(optionList, '|') == parts
  {
    optionList := "";
    for i := 0 to |parts|
      invariant i == 0 ==> optionList == ""
      invariant i > 0 ==> optionList == Join(parts[..i], '|') + "|"
    {
      assert parts[..i + 1] == parts[..i] + [parts[i]];
      if i > 0 {
        JoinAppend(parts[..i], parts[i], '|');
      }
      optionList := optionList + parts[i] + "|";
    }
    assert parts[..|parts|] == parts;
    if |optionList| > 0 {
      optionList := optionList[..|optionList| - 1];
    }
    if |parts| > 0 && (forall i :: 0 <= i < |parts| ==> '|' !in parts[i]) {
      SplitJoin(parts, '|');
    }
  }

  /** url_builder: the endpoint, the options in iteration order, and the
      API key as the final parameter. */
  method UrlBuilder(options: seq<QueryOption>, apiKey: string) returns (url: string)
    ensures url == DirectionsEndpoint + Query(options) + "&key=" + apiKey
    ensures StartsWith(url, DirectionsEndpoint)
    ensures EndsWith(url, "&key=" + apiKey)
  {
    var urlOptions := "";
    for i := 0 to |options|
      invariant urlOptions == Query(options[..i])
    {
      var charToAdd := if |urlOptions| == 0 then "?" else "&";
      var optionText;
      match options[i].value {
        case Scalar(s) =>
          optionText := s;
        case Tuple(parts) =>
          optionText := JoinTuple(parts);
      }
      assert optionText == ValueText(options[i].value);
      QueryAppend(options[..i], options[i]);
      urlOptions := urlOptions + charToAdd + (options[i].name + "=" + optionText);
      assert options[..i + 1] == options[..i] + [options[i]];
    }
    assert options[..|options|] == options;
    urlOptions := urlOptions + "&key=" + apiKey;
    url := DirectionsEndpoint + urlOptions;
    UrlShape(Query(options), apiKey);
  }

  lemma UrlShape(query: string, apiKey: string)
    ensures StartsWith(DirectionsEndpoint + query + "&key=" + apiKey, DirectionsEndpoint)
    ensures EndsWith(DirectionsEndpoint + query + "&key=" + apiKey, "&key=" + apiKey)
  {
    var url := DirectionsEndpoint + query + "&key=" + apiKey;
    assert url == DirectionsEndpoint + (query + "&key=" + apiKey);
    assert url == (DirectionsEndpoint + query) + ("&key=" + apiKey);
  }

  /** No options: the key follows the endpoint directly; otherwise a `?`
      follows the endpoint. */
  lemma UrlQueryMark(options: seq<QueryOption>, apiKey: string)
    ensures options == [] ==>
      DirectionsEndpoint + Query(options) + "&key=" + apiKey == DirectionsEndpoint + "&key=" + apiKey
    ensures options != [] ==>
      (DirectionsEndpoint + Query(options) + "&key=" + apiKey)[|DirectionsEndpoint|] == '?'
  {
    if options != [] {
      var q := Query(options);
      assert q[0] == '?';
      assert (DirectionsEndpoint + q + "&key=" + apiKey)[|DirectionsEndpoint|] == q[0];
    }
  }

  /** A one-element tuple is sent exactly like the plain string. */
  lemma SingletonTupleIsScalar(s: string)
    ensures ValueText(Tuple([s])) == ValueText(Scalar(s))
  {
  }

  // ---- reading a query back: the partner of Query ----

  /** `name=value` split at its first `=`. */
  function DecodeParameter(f: string): (string, string)
  {
    var k := IndexOf(f, '=');
    (f[..k], if k < |f| then f[k + 1..] else "")
  }

  /** The `name=value` pairs of a query component. */
  function DecodeQuery(q: string): seq<(string, string)>
  {
    if q == [] then []
    else
      var fields := Split(q[1..], '&');
      seq(|fields|, i requires 0 <= i < |fields| => DecodeParameter(fields[i]))
  }

  /** What each option contributes: its name and its value text. */
  function Pairs(options: seq<QueryOption>): seq<(string, string)>
  {
    seq(|options|, i requires 0 <= i < |options| => (options[i].name, ValueText(options[i].value)))
  }

  /** No name holds `=` or `&` and no value text holds `&`: the only case
      in which the unencoded query can be read back. */
  predicate Unambiguous(options: seq<QueryOption>)
  {
    forall i :: 0 <= i < |options| ==>
      '=' !in options[i].name && '&' !in options[i].name && '&' !in ValueText(options[i].value)
  }

  /** A parameter reads back as its name and value when the name has no `=`. */
  lemma DecodeParameterRoundTrip(name: string, value: string)
    requires '=' !in name
    ensures DecodeParameter(name + "=" + value) == (name, value)
  {
    var f := name + "=" + value;
    assert f[|name|] == '=';
    assert f[..|name|] == name;
    assert IndexOf(f, '=') == |name|;
  }

  /** Reading the query back yields every option, in order, with its value
      verbatim, provided no reserved character needed escaping. */
  lemma QueryRoundTrip(options: seq<QueryOption>)
    requires Unambiguous(options)
    ensures DecodeQuery(Query(options)) == Pairs(options)
  {
    if options != [] {
      var ps := Parameters(options);
      forall i | 0 <= i < |ps| ensures '&' !in ps[i] {
        assert ps[i] == options[i].name + "=" + ValueText(options[i].value);
      }
      SplitJoin(ps, '&');
      var q := Query(options);
      assert q[1..] == Join(ps, '&');
      forall i | 0 <= i < |options|
        ensures DecodeParameter(ps[i]) == (options[i].name, ValueText(options[i].value))
      {
        DecodeParameterRoundTrip(options[i].name, ValueText(options[i].value));
      }
    }
  }

  /** Without percent-encoding an `&` inside a value splits it into a
      second, spurious parameter. */
  lemma AmpersandValueBreaksQuery()
    ensures |DecodeQuery(Query([QueryOption("origin", Scalar("A&B"))]))| == 2
  {
    var o := QueryOption("origin", Scalar("A&B"));
    assert Parameter(o) == "origin=A&B";
    assert Parameters([o]) == ["origin=A&B"];
    var q := Query([o]);
    assert q[1..] == "origin=A&B" == Join(["origin=A", "B"], '&');
    SplitJoin(["origin=A", "B"], '&');
  }

  // ---------------------------------------------------------------------
  // Accessors
  // ---------------------------------------------------------------------

  /** get_num_routes */
  function NumRoutes(r: Response): (n: nat)
    ensures n == |r.routes|
  {
    |r.routes|
  }

  /** getNumberOfRoutes: the same count as get_num_routes. */
  function NumberOfRoutes(r: Response): (n: nat)
    ensures n == NumRoutes(r)
  {
    |r.routes|
  }

  /** verify_route_found */
  function RouteFound(r: Response): (found: bool)
    ensures found <==> NumRoutes(r) > 0
  {
    if NumRoutes(r) > 0 then true else false
  }

  /** get_steps */
  function Steps(r: Response, legNumber: nat): (steps: seq<Step>)
    requires HasLeg(r, legNumber)
    ensures steps == r.routes[0].legs[legNumber].steps
  {
    LegAt(r, legNumber).steps
  }

  /** get_arrival_time: the leg's field, or the `False` sentinel (None)
      when it is absent; never a failure for absence. */
  function ArrivalTime(r: Response, legNumber: nat): (t: Option<TextValue>)
    requires HasLeg(r, legNumber)
    ensures t.Some? <==> r.routes[0].legs[legNumber].arrivalTime.Some?
    ensures t.Some? ==> t.value == r.routes[0].legs[legNumber].arrivalTime.value
  {
    if LegAt(r, legNumber).arrivalTime.Some? then Some(LegAt(r, legNumber).arrivalTime.value) else None
  }

  /** get_departure_time */
  function DepartureTime(r: Response, legNumber: nat): (t: Option<TextValue>)
    requires HasLeg(r, legNumber)
    ensures t.Some? <==> r.routes[0].legs[legNumber].departureTime.Some?
    ensures t.Some? ==> t.value == r.routes[0].legs[legNumber].departureTime.value
  {
    if LegAt(r, legNumber).departureTime.Some? then Some(LegAt(r, legNumber).departureTime.value) else None
  }

  /** get_duration_value */
  function DurationValue(r: Response, legNumber: nat): (seconds: int)
    requires HasLeg(r, legNumber)
    ensures seconds == r.routes[0].legs[legNumber].duration.value
  {
    LegAt(r, legNumber).duration.value
  }

  /** get_duration_in_traffic_value: the traffic-aware seconds, or None. */
  function DurationInTrafficValue(r: Response, legNumber: nat): (seconds: Option<int>)
    requires HasLeg(r, legNumber)
    ensures seconds.Some? <==> r.routes[0].legs[legNumber].durationInTraffic.Some?
    ensures seconds.Some? ==> seconds.value == r.routes[0].legs[legNumber].durationInTraffic.value.value
  {
    match LegAt(r, legNumber).durationInTraffic
    case Some(d) => Some(d.value)
    case None => None
  }

  /** getUnit: the whole distance text of leg 0, number and unit. */
  function DistanceText(r: Response): (text: string)
    requires HasLeg(r, 0)
    ensures text == r.routes[0].legs[0].distance.text
  {
    LegAt(r, 0).distance.text
  }

  const TransitWaypointsError :=
    "Transit may not be used as a mode when adding waypoints in between an origin and destination."

  /** get_waypoints returns either a count or an `{"error": ...}` record. */
  datatype WaypointsResult = WaypointCount(count: nat) | WaypointsError(error: string)

  /** get_waypoints */
  function Waypoints(r: Response): (w: WaypointsResult)
    ensures w.WaypointsError? <==> r.errorMessage.Some?
    ensures w.WaypointsError? ==> w.error == TransitWaypointsError
    ensures w.WaypointCount? ==> w.count == |r.geocodedWaypoints|
  {
    if r.errorMessage.Some? then WaypointsError(TransitWaypointsError)
    else WaypointCount(|r.geocodedWaypoints|)
  }

  /** get_start_address */
  function StartAddress(r: Response): (address: string)
    requires HasLeg(r, 0)
    ensures address == r.routes[0].legs[0].startAddress
  {
    LegAt(r, 0).startAddress
  }

  // ---- get_transit_mode ----

  /** The step carries `transit_details` with a `line`. */
  predicate HasLine(s: Step)
  {
    s.transitDetails.Some? && s.transitDetails.value.line.Some?
  }

  function VehicleName(s: Step): string
    requires HasLine(s)
  {
    s.transitDetails.value.line.value.vehicleName
  }

  /** The lookup after the loop: step 0's vehicle name, None where Python
      would raise (no step 0, or no `transit_details`/`line` on it). */
  function FallbackVehicle(leg: Leg): (name: Option<string>)
    ensures name.Some? <==> |leg.steps| > 0 && HasLine(leg.steps[0])
    ensures name.Some? ==> name.value == VehicleName(leg.steps[0])
  {
    if |leg.steps| > 0 && HasLine(leg.steps[0]) then Some(VehicleName(leg.steps[0])) else None
  }

  /** get_transit_mode: the vehicle name of the first leg-0 step that has
      a transit line; None when no step has one. */
  method TransitMode(r: Response) returns (name: Option<string>)
    requires HasLeg(r, 0)
    ensures name.Some? <==> exists i :: 0 <= i < |Steps(r, 0)| && HasLine(Steps(r, 0)[i])
    ensures name.Some? ==>
      exists i :: 0 <= i < |Steps(r, 0)| && HasLine(Steps(r, 0)[i])
        && name.value == VehicleName(Steps(r, 0)[i])
        && forall j :: 0 <= j < i ==> !HasLine(Steps(r, 0)[j])
  {
    var steps := Steps(r, 0);
    for i := 0 to |steps|
      invariant forall j :: 0 <= j < i ==> !HasLine(steps[j])
    {
      var step := steps[i];
      if step.transitDetails.Some? {
        if step.transitDetails.value.line.Some? {
          return Some(step.transitDetails.value.line.value.vehicleName);
        }
      }
    }
    name := FallbackVehicle(LegAt(r, 0));
  }

  // ---- get_travel_mode ----

  datatype TravelModeInfo = TravelModeInfo(travelMode: string, duration: int)

  /** get_travel_mode: a fare means transit; otherwise step 0's own mode.
      Python reads step 0 only when there is no fare. */
  function TravelMode(r: Response): (m: TravelModeInfo)
    requires HasLeg(r, 0)
    requires r.routes[0].fare.None? ==> |r.routes[0].legs[0].steps| > 0
    ensures m.duration == r.routes[0].legs[0].duration.value
    ensures r.routes[0].fare.Some? ==> m.travelMode == "TRANSIT"
    ensures r.routes[0].fare.None? ==> m.travelMode == r.routes[0].legs[0].steps[0].travelMode
  {
    if r.routes[0].fare.Some? then TravelModeInfo("TRANSIT", LegAt(r, 0).duration.value)
    else TravelModeInfo(LegAt(r, 0).steps[0].travelMode, LegAt(r, 0).duration.value)
  }

  // ---- get_transit_route_preferences ----

  /** Walking steps are those with nested `steps`; transit steps are those
      with `transit_details`. A step can be both or neither. */
  datatype StepKind = Walking | Transit

  predicate CountsAs(s: Step, k: StepKind)
  {
    match k
    case Walking => s.subSteps.Some?
    case Transit => s.transitDetails.Some?
  }

  function Contribution(s: Step, k: StepKind): int
  {
    if CountsAs(s, k) then s.duration.value else 0
  }

  /** Sum of the durations of the steps of kind k. */
  function KindDuration(steps: seq<Step>, k: StepKind): int
  {
    if steps == [] then 0
    else KindDuration(steps[..|steps| - 1], k) + Contribution(steps[|steps| - 1], k)
  }

  /** Sum of the durations of all steps. */
  function TotalStepDuration(steps: seq<Step>): int
  {
    if steps == [] then 0
    else TotalStepDuration(steps[..|steps| - 1]) + steps[|steps| - 1].duration.value
  }

  lemma {:induction false} KindDurationAppend(a: seq<Step>, b: seq<Step>, k: StepKind)
    ensures KindDuration(a + b, k) == KindDuration(a, k) + KindDuration(b, k)
    decreases |b|
  {
    if b == [] {
      assert a + b == a;
    } else {
      var b' := b[..|b| - 1];
      assert (a + b)[..|a + b| - 1] == a + b';
      KindDurationAppend(a, b', k);
    }
  }

  /** Removing step j takes away exactly that step's contribution. */
  lemma KindDurationRemove(t: seq<Step>, j: nat, k: StepKind)
    requires j < |t|
    ensures KindDuration(t, k) == KindDuration(t[..j] + t[j + 1..], k) + Contribution(t[j], k)
  {
    assert t == t[..j] + [t[j]] + t[j + 1..];
    KindDurationAppend(t[..j], [t[j]], k);
    KindDurationAppend(t[..j] + [t[j]], t[j + 1..], k);
    KindDurationAppend(t[..j], t[j + 1..], k);
    assert KindDuration([t[j]], k) == Contribution(t[j], k) by {
      assert [t[j]][..0] == [];
    }
  }

  /** In a permutation of s, some step j matches the last step of s, and
      the rest of both sides are permutations of each other. */
  lemma MatchLast(s: seq<Step>, t: seq<Step>) returns (j: nat)
    requires |s| > 0 && multiset(s) == multiset(t)
    ensures j < |t| && t[j] == s[|s| - 1]
    ensures multiset(s[..|s| - 1]) == multiset(t[..j] + t[j + 1..])
  {
    var x := s[|s| - 1];
    assert s == s[..|s| - 1] + [x];
    assert x in multiset(t);
    j :| 0 <= j < |t| && t[j] == x;
    assert multiset(s[..|s| - 1]) == multiset(s) - multiset([x]);
    assert t == t[..j] + [x] + t[j + 1..];
    assert multiset(t) == multiset(t[..j]) + multiset([x]) + multiset(t[j + 1..]);
    assert multiset(t[..j] + t[j + 1..]) == multiset(t[..j]) + multiset(t[j + 1..]);
  }

  /** The sums do not depend on the order of the steps. */
  lemma {:induction false} KindDurationPermutation(s: seq<Step>, t: seq<Step>, k: StepKind)
    requires multiset(s) == multiset(t)
    ensures KindDuration(s, k) == KindDuration(t, k)
    decreases |s|
  {
    if s == [] {
      assert |t| == |multiset(t)| == 0;
    } else {
      var j := MatchLast(s, t);
      KindDurationRemove(t, j, k);
      KindDurationPermutation(s[..|s| - 1], t[..j] + t[j + 1..], k);
    }
  }

  /** With non-negative durations each sum lies between 0 and the sum of
      all step durations. */
  lemma {:induction false} KindDurationBounded(steps: seq<Step>, k: StepKind)
    requires forall i :: 0 <= i < |steps| ==> steps[i].duration.value >= 0
    ensures 0 <= KindDuration(steps, k) <= TotalStepDuration(steps)
    decreases |steps|
  {
    if steps != [] {
      KindDurationBounded(steps[..|steps| - 1], k);
    }
  }

  datatype RoutePreferences = RoutePreferences(duration: int, walkingDuration: int, transitDuration: int)

  /** get_transit_route_preferences */
  method TransitRoutePreferences(r: Response) returns (p: RoutePreferences)
    requires HasLeg(r, 0)
    ensures p.duration == r.routes[0].legs[0].duration.value
    ensures p.walkingDuration == KindDuration(Steps(r, 0), Walking)
    ensures p.transitDuration == KindDuration(Steps(r, 0), Transit)
  {
    var steps := Steps(r, 0);
    var walkingDuration := 0;
    var transitDuration := 0;
    for index := 0 to |steps|
      invariant walkingDuration == KindDuration(steps[..index], Walking)
      invariant transitDuration == KindDuration(steps[..index], Transit)
    {
      assert steps[..index + 1][..index] == steps[..index];
      if steps[index].subSteps.Some? {
        walkingDuration := walkingDuration + steps[index].duration.value;
      }
      if steps[index].transitDetails.Some? {
        transitDuration := transitDuration + steps[index].duration.value;
      }
    }
    assert steps[..|steps|] == steps;
    p := RoutePreferences(LegAt(r, 0).duration.value, walkingDuration, transitDuration);
  }
}
