/** The parsed Google Directions JSON payload (`routes -> legs -> steps`),
    as far as the server reads it. A field the API may omit is an Option. */
module Directions {

  datatype Option<+T> = None | Some(value: T)

  /** `{"text": ..., "value": ...}`: distance (metres), duration (seconds),
      arrival or departure time (Unix seconds). */
  datatype TextValue = TextValue(text: string, value: int)

  /** `{"lat": ..., "lng": ...}`, each number kept as its decimal text. */
  datatype LatLng = LatLng(lat: string, lng: string)

  /** `transit_details.line`, of which only `vehicle.name` is read. */
  datatype Line = Line(vehicleName: string)

  datatype TransitDetails = TransitDetails(line: Option<Line>)

  /** One step of a leg; a transit route's walking step carries its own
      nested `steps`. */
  datatype Step = Step(
    travelMode: string,
    maneuver: Option<string>,
    duration: TextValue,
    transitDetails: Option<TransitDetails>,
    subSteps: Option<seq<Step>>)

  datatype Leg = Leg(
    distance: TextValue,
    duration: TextValue,
    durationInTraffic: Option<TextValue>,
    arrivalTime: Option<TextValue>,
    departureTime: Option<TextValue>,
    startLocation: LatLng,
    endLocation: LatLng,
    startAddress: string,
    steps: seq<Step>)

  datatype Fare = Fare(text: string, value: int)

  datatype Route = Route(legs: seq<Leg>, fare: Option<Fare>)

  datatype GeocodedWaypoint = GeocodedWaypoint(geocoderStatus: string)

  datatype Response = Response(
    routes: seq<Route>,
    geocodedWaypoints: seq<GeocodedWaypoint>,
    status: string,
    errorMessage: Option<string>)

  /** `route_data["routes"][0]["legs"][legNumber]` can be read without a
      KeyError or IndexError. */
  predicate HasLeg(r: Response, legNumber: nat)
  {
    |r.routes| > 0 && legNumber < |r.routes[0].legs|
  }

  function LegAt(r: Response, legNumber: nat): Leg
    requires HasLeg(r, legNumber)
  {
    r.routes[0].legs[legNumber]
  }
}
