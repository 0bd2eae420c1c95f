/**
 * The editing rules of the MapView component: the midpoint ("+") markers
 * that insert a waypoint halfway along a leg, the route polyline, and the
 * `draggingIndex` state that puts one waypoint marker into drag mode. The
 * waypoint list belongs to the App component; MapView changes it only
 * through App's handlers.
 */
module MapView {
  import opened Wrappers
  import opened RouteDistance
  import JsArray
  import App

  /** `m` lies, in both coordinates, between `a` and `b`. */
  predicate Between(m: Waypoint, a: Waypoint, b: Waypoint)
  {
    (a.lat <= m.lat <= b.lat || b.lat <= m.lat <= a.lat) &&
    (a.lng <= m.lng <= b.lng || b.lng <= m.lng <= a.lng)
  }

  /** `calculateMidpoint`: the point as far from `a` as from `b` in each coordinate. */
  function Midpoint(a: Waypoint, b: Waypoint): (m: Waypoint)
    ensures m.lat - a.lat == b.lat - m.lat && m.lng - a.lng == b.lng - m.lng
    ensures Between(m, a, b)
  {
    Waypoint((a.lat + b.lat) / 2.0, (a.lng + b.lng) / 2.0)
  }

  /** `routePositions`: the `[lat, lng]` pair of every waypoint, in the same order. */
  function RoutePositions(waypoints: seq<Waypoint>): (positions: seq<(real, real)>)
    ensures |positions| == |waypoints|
    ensures forall k :: 0 <= k < |waypoints| ==> positions[k] == (waypoints[k].lat, waypoints[k].lng)
  {
    seq(|waypoints|, k requires 0 <= k < |waypoints| => (waypoints[k].lat, waypoints[k].lng))
  }

  /** The route polyline is drawn only when there are at least two waypoints. */
  predicate PolylineShown(waypoints: seq<Waypoint>)
  {
    |waypoints| > 1
  }

  /** The route polyline is drawn exactly when there is a leg, that is when a midpoint marker exists. */
  lemma PolylineWithMarkers(waypoints: seq<Waypoint>)
    ensures PolylineShown(waypoints) <==> |InsertMarkers(waypoints)| > 0
    ensures PolylineShown(waypoints) <==> |RoutePositions(waypoints)| >= 2
  {
  }

  /** A midpoint marker: clicking it calls `handleInsertWaypoint(afterIndex)`. */
  datatype InsertMarker = InsertMarker(afterIndex: nat, position: Waypoint)

  /**
   * The midpoint markers, `waypoints.slice(0, -1).map(...)` when there are at
   * least two waypoints: one per leg, at the leg's midpoint, none for a route
   * of one waypoint or none.
   */
  function InsertMarkers(waypoints: seq<Waypoint>): (markers: seq<InsertMarker>)
    ensures |markers| == if |waypoints| > 1 then |waypoints| - 1 else 0
    ensures forall k :: 0 <= k < |markers| ==> markers[k].afterIndex == k && k + 1 < |waypoints|
    ensures forall k :: 0 <= k < |markers| ==> Between(markers[k].position, waypoints[k], waypoints[k + 1])
  {
    if |waypoints| > 1 then
      seq(|waypoints| - 1, k requires 0 <= k < |waypoints| - 1 =>
        InsertMarker(k, Midpoint(waypoints[k], waypoints[k + 1])))
    else []
  }

  class MapView {
    /** The App component's state and handlers, which MapView receives as props. */
    const app: App.RouteEditor
    /** The index of the waypoint marker in drag mode (`null` is `None`). */
    var draggingIndex: Option<int>

    ghost predicate Valid()
      reads this, app
    {
      app.Valid()
    }

    constructor (app: App.RouteEditor)
      requires app.Valid()
      ensures Valid() && this.app == app && draggingIndex == None
    {
      this.app := app;
      draggingIndex := None;
    }

    /** Whether the marker at `index` is draggable (`draggingIndex === index`). */
    predicate Draggable(index: int)
      reads this
    {
      draggingIndex == Some(index)
    }

    /** The waypoint markers that are draggable: at most one, and exactly the one in drag mode. */
    function DraggableMarkers(): (indices: set<int>)
      reads this, app
      ensures |indices| <= 1
      ensures forall k :: k in indices <==> 0 <= k < |app.waypoints| && Draggable(k)
    {
      var indices := set k | 0 <= k < |app.waypoints| && draggingIndex == Some(k);
      assert indices == if draggingIndex.Some? && 0 <= draggingIndex.value < |app.waypoints|
                        then {draggingIndex.value} else {};
      indices
    }

    /**
     * `handleInsertWaypoint(afterIndex)`: asks App to insert, at
     * `afterIndex + 1`, the midpoint of the leg from `afterIndex`.
     */
    method InsertWaypoint(afterIndex: int)
      requires Valid()
      requires 0 <= afterIndex && afterIndex + 1 < |app.waypoints|
      modifies app
      ensures Valid()
      ensures app.waypoints == JsArray.SpliceInsert(old(app.waypoints), afterIndex + 1,
                                                    Midpoint(old(app.waypoints)[afterIndex], old(app.waypoints)[afterIndex + 1]))
      ensures |app.waypoints| == |old(app.waypoints)| + 1
      ensures app.waypoints[afterIndex] == old(app.waypoints)[afterIndex]
      ensures app.waypoints[afterIndex + 2] == old(app.waypoints)[afterIndex + 1]
      ensures Between(app.waypoints[afterIndex + 1], app.waypoints[afterIndex], app.waypoints[afterIndex + 2])
      ensures app.lastAddedIndex == Some(afterIndex + 1) && app.speed == old(app.speed)
      ensures draggingIndex == old(draggingIndex)
    {
      var midpoint := Midpoint(app.waypoints[afterIndex], app.waypoints[afterIndex + 1]);
      app.WaypointInsert(afterIndex + 1, midpoint);
    }

    /** `handleMoveClick`: puts the marker at `index` into drag mode. */
    method MoveClick(index: int)
      modifies this
      ensures draggingIndex == Some(index)
      ensures DraggableMarkers() == if 0 <= index < |app.waypoints| then {index} else {}
    {
      draggingIndex := Some(index);
    }

    /** `handleCancelMove`: leaves drag mode. */
    method CancelMove(index: int)
      modifies this
      ensures draggingIndex == None
      ensures DraggableMarkers() == {}
    {
      draggingIndex := None;
    }

    /** `handleDragEnd`: forwards the marker's new position to App, then leaves drag mode. */
    method DragEnd(index: int, newPosition: Waypoint)
      requires Valid()
      requires 0 <= index < |app.waypoints|
      modifies this, app
      ensures Valid()
      ensures app.waypoints == old(app.waypoints)[index := newPosition]
      ensures app.speed == old(app.speed) && app.lastAddedIndex == old(app.lastAddedIndex)
      ensures draggingIndex == None
    {
      app.WaypointUpdate(index, newPosition);
      draggingIndex := None;
    }

    /**
     * `handleDeleteClick`: leaves drag mode only when the deleted marker is
     * the one in drag mode, and always asks App to remove the waypoint.
     * Drag mode follows the index, not the waypoint: after deleting an
     * earlier waypoint, the waypoint that was in drag mode sits one position
     * earlier while `draggingIndex` stays.
     */
    method DeleteClick(index: int)
      requires Valid()
      modifies this, app
      ensures Valid()
      ensures draggingIndex == if old(draggingIndex) == Some(index) then None else old(draggingIndex)
      ensures app.waypoints == JsArray.WithoutIndex(old(app.waypoints), index)
      ensures app.speed == old(app.speed) && app.lastAddedIndex == old(app.lastAddedIndex)
      ensures draggingIndex.Some? && 0 <= index < draggingIndex.value < |old(app.waypoints)| ==>
        app.waypoints[draggingIndex.value - 1] == old(app.waypoints)[draggingIndex.value]
    {
      if draggingIndex == Some(index) {
        draggingIndex := None;
      }
      app.WaypointRemove(index);
    }
  }

  /** Every midpoint marker can be clicked: its index meets what `InsertWaypoint` needs. */
  lemma MarkersAreInsertable(view: MapView, k: nat)
    requires view.Valid()
    requires k < |InsertMarkers(view.app.waypoints)|
    ensures var afterIndex := InsertMarkers(view.app.waypoints)[k].afterIndex;
      0 <= afterIndex && afterIndex + 1 < |view.app.waypoints|
  {
  }
}
