/**
 * The route-editing state of the App component: the ordered waypoint list,
 * the single cruising speed, the cached total distance and the index of the
 * waypoint last added. Every handler replaces the list and then recomputes
 * the cached total, so `totalDistance` always equals the length of the
 * current route (the invariant `Valid`).
 */
module App {
  import opened Wrappers
  import opened RouteDistance
  import JsArray
  import JsNumber

  /** The speed, in knots, a new session starts with. */
  const InitialSpeed: real := 12.0

  /** `estimatedTime`: the hours the route takes at `speed`, or 0 when the speed is not positive. */
  function TravelTime(totalDistance: real, speed: real): (hours: real)
    ensures speed > 0.0 ==> hours * speed == totalDistance
    ensures speed <= 0.0 ==> hours == 0.0
    ensures totalDistance >= 0.0 ==> hours >= 0.0
  {
    if speed > 0.0 then totalDistance / speed else 0.0
  }

  /**
   * The speed after `handleSpeedChange(value)`: a number that parses and is
   * not negative is taken, the empty string sets 0, anything else keeps the
   * current speed.
   */
  function SpeedAfterInput(value: string, current: real): (speed: real)
    ensures current >= 0.0 ==> speed >= 0.0
    ensures speed != current ==> (JsNumber.ParseFloat(value) == Some(speed) || (value == "" && speed == 0.0))
  {
    match JsNumber.ParseFloat(value)
    case Some(v) => if v >= 0.0 then v else current
    case None => if value == "" then 0.0 else current
  }

  /**
   * The three rules of the speed input: a number that is not negative is
   * taken, clearing the field sets 0, and any other text (a negative number,
   * or text that is not a number) leaves the speed as it was.
   */
  lemma SpeedInputRules(value: string, current: real)
    ensures JsNumber.ParseFloat(value).Some? && JsNumber.ParseFloat(value).value >= 0.0 ==>
      SpeedAfterInput(value, current) == JsNumber.ParseFloat(value).value
    ensures value == "" ==> SpeedAfterInput(value, current) == 0.0
    ensures value != "" && (JsNumber.ParseFloat(value).None? || JsNumber.ParseFloat(value).value < 0.0) ==>
      SpeedAfterInput(value, current) == current
  {
    if value == "" {
      JsNumber.ParseFloatNaN(value);
    }
  }

  /** Typing the decimal numeral of a whole number of knots sets exactly that speed. */
  lemma SpeedFromNumeral(n: nat, current: real)
    ensures SpeedAfterInput(JsNumber.NatToString(n), current) == n as real
  {
    JsNumber.NatRoundTrip(n);
  }

  /** The data `handleAnalyze` prepares for the backend. */
  datatype RouteData = RouteData(waypoints: seq<Waypoint>, speed: real, totalDistance: real, estimatedTime: real)

  class RouteEditor {
    /** `calculateDistance`, the leg distance of two waypoints. */
    const dist: LegDistance
    var waypoints: seq<Waypoint>
    var speed: real
    var totalDistance: real
    /** The index of the waypoint last added or inserted (`null` is `None`). */
    var lastAddedIndex: Option<int>

    /** The cached total is the length of the current route, and the speed is never negative. */
    ghost predicate Valid()
      reads this
    {
      totalDistance == PathLength(waypoints, dist) && speed >= 0.0
    }

    constructor (dist: LegDistance)
      ensures Valid() && this.dist == dist
      ensures waypoints == [] && speed == InitialSpeed && totalDistance == 0.0 && lastAddedIndex == None
    {
      this.dist := dist;
      waypoints := [];
      speed := InitialSpeed;
      totalDistance := 0.0;
      lastAddedIndex := None;
    }

    /** `estimatedTime` of the current state. */
    function EstimatedTime(): (hours: real)
      reads this
      ensures speed > 0.0 ==> hours * speed == totalDistance
      ensures speed <= 0.0 ==> hours == 0.0
    {
      TravelTime(totalDistance, speed)
    }

    /** `handleWaypointAdd`: appends the waypoint, marks it as last added, recomputes the total. */
    method WaypointAdd(latlng: Waypoint)
      requires Valid()
      modifies this
      ensures Valid()
      ensures waypoints == old(waypoints) + [latlng]
      ensures lastAddedIndex == Some(|old(waypoints)|)
      ensures speed == old(speed)
      ensures |old(waypoints)| >= 1 ==>
        totalDistance == old(totalDistance) + dist(old(waypoints)[|old(waypoints)| - 1], latlng)
    {
      var updated := waypoints + [Waypoint(latlng.lat, latlng.lng)];
      waypoints := updated;
      lastAddedIndex := Some(|updated| - 1);
      totalDistance := CalculateTotalDistance(updated, dist);
      if |old(waypoints)| >= 1 {
        PathLengthAppend(old(waypoints), latlng, dist);
      }
    }

    /**
     * `handleWaypointRemove`: keeps every waypoint whose position is not
     * `index` (an index out of range keeps them all), recomputes the total.
     */
    method WaypointRemove(index: int)
      requires Valid()
      modifies this
      ensures Valid()
      ensures waypoints == JsArray.WithoutIndex(old(waypoints), index)
      ensures 0 <= index < |old(waypoints)| ==> |waypoints| == |old(waypoints)| - 1
      ensures !(0 <= index < |old(waypoints)|) ==> waypoints == old(waypoints)
      ensures speed == old(speed) && lastAddedIndex == old(lastAddedIndex)
      ensures 0 < index < |old(waypoints)| - 1 ==>
        var s := old(waypoints);
        totalDistance == old(totalDistance) - dist(s[index - 1], s[index]) - dist(s[index], s[index + 1])
                                            + dist(s[index - 1], s[index + 1])
    {
      var updated := JsArray.WithoutIndex(waypoints, index);
      waypoints := updated;
      totalDistance := CalculateTotalDistance(updated, dist);
      if 0 < index < |old(waypoints)| - 1 {
        RemoveLength(old(waypoints), index, dist);
      }
    }

    /**
     * `handleWaypointUpdate`: assigns the new position at `index` of a copy
     * of the list, recomputes the total. An index in range moves that
     * waypoint, the index one past the end appends, and a negative index
     * leaves the list as it was.
     */
    method WaypointUpdate(index: int, newPosition: Waypoint)
      requires Valid()
      requires index <= |waypoints|
      modifies this
      ensures Valid()
      ensures waypoints == JsArray.AssignAt(old(waypoints), index, newPosition)
      ensures 0 <= index < |old(waypoints)| ==> waypoints == old(waypoints)[index := newPosition]
      ensures index == |old(waypoints)| ==> waypoints == old(waypoints) + [newPosition]
      ensures index < 0 ==> waypoints == old(waypoints) && totalDistance == old(totalDistance)
      ensures speed == old(speed) && lastAddedIndex == old(lastAddedIndex)
      ensures 0 < index < |old(waypoints)| - 1 ==>
        var s := old(waypoints);
        totalDistance == old(totalDistance) - dist(s[index - 1], s[index]) - dist(s[index], s[index + 1])
                                            + dist(s[index - 1], newPosition) + dist(newPosition, s[index + 1])
      ensures 1 <= index == |old(waypoints)| ==>
        totalDistance == old(totalDistance) + dist(old(waypoints)[index - 1], newPosition)
    {
      var updated := JsArray.AssignAt(waypoints, index, Waypoint(newPosition.lat, newPosition.lng));
      waypoints := updated;
      totalDistance := CalculateTotalDistance(updated, dist);
      if 0 < index < |old(waypoints)| - 1 {
        UpdateLength(old(waypoints), index, newPosition, dist);
      } else if 1 <= index == |old(waypoints)| {
        PathLengthAppend(old(waypoints), newPosition, dist);
      }
    }

    /**
     * `handleWaypointInsert`: splices the waypoint in at `index`, marks
     * `index` as last added, recomputes the total.
     */
    method WaypointInsert(index: int, position: Waypoint)
      requires Valid()
      modifies this
      ensures Valid()
      ensures waypoints == JsArray.SpliceInsert(old(waypoints), index, position)
      ensures 0 <= index <= |old(waypoints)| ==>
        waypoints == old(waypoints)[..index] + [position] + old(waypoints)[index..]
      ensures lastAddedIndex == Some(index)
      ensures speed == old(speed)
      ensures 0 < index < |old(waypoints)| ==>
        var s := old(waypoints);
        totalDistance == old(totalDistance) - dist(s[index - 1], s[index]) + dist(s[index - 1], position)
                                            + dist(position, s[index])
    {
      var updated := JsArray.SpliceInsert(waypoints, index, Waypoint(position.lat, position.lng));
      waypoints := updated;
      lastAddedIndex := Some(index);
      totalDistance := CalculateTotalDistance(updated, dist);
      if 0 < index < |old(waypoints)| {
        InsertLength(old(waypoints), index, position, dist);
      }
    }

    /** `handleClearAll`: empties the list and sets the total to 0. */
    method ClearAll()
      requires Valid()
      modifies this
      ensures Valid()
      ensures waypoints == [] && totalDistance == 0.0
      ensures speed == old(speed) && lastAddedIndex == old(lastAddedIndex)
    {
      waypoints := [];
      totalDistance := 0.0;
    }

    /** `handleSpeedChange`: the speed input's new text decides the speed. */
    method SpeedChange(value: string)
      requires Valid()
      modifies this
      ensures Valid()
      ensures speed == SpeedAfterInput(value, old(speed))
      ensures waypoints == old(waypoints) && totalDistance == old(totalDistance)
      ensures lastAddedIndex == old(lastAddedIndex)
    {
      var numValue := JsNumber.ParseFloat(value);
      if numValue.Some? && numValue.value >= 0.0 {
        speed := numValue.value;
      } else if value == "" {
        speed := 0.0;
      }
    }

    /**
     * `handleAnalyze`: with fewer than two waypoints it only warns (`None`);
     * otherwise it builds the payload of the current waypoints, speed, total
     * distance and estimated time.
     */
    function Analyze(): (payload: Option<RouteData>)
      reads this
      ensures payload.None? <==> |waypoints| < 2
      ensures payload.Some? ==> payload.value.waypoints == waypoints && payload.value.speed == speed
      ensures payload.Some? ==> payload.value.totalDistance == totalDistance
      ensures payload.Some? && speed > 0.0 ==> payload.value.estimatedTime * speed == totalDistance
      ensures payload.Some? && speed <= 0.0 ==> payload.value.estimatedTime == 0.0
    {
      if |waypoints| < 2 then None
      else Some(RouteData(waypoints, speed, totalDistance, EstimatedTime()))
    }
  }

  /** With leg distances that are never negative, the cached total and the estimated time are never negative. */
  lemma EstimatesNonNegative(editor: RouteEditor)
    requires editor.Valid() && NonNegative(editor.dist)
    ensures editor.totalDistance >= 0.0 && editor.EstimatedTime() >= 0.0
  {
    PathLengthNonNegative(editor.waypoints, editor.dist);
  }
}
