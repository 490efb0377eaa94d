/**
 * `createRoutedMap`: one circle marker per stop, in stop order, the two
 * endpoints larger and green, the stops between them smaller and blue; the
 * waypoint list is the stops' positions in the same order, and when the
 * routing service fails the same list is drawn as a dashed straight line.
 * The map itself stands for Leaflet's map object: only the layers and
 * settings that this code gives it are recorded.
 */
module RoutedMap {
  import opened Wrappers

  /** Coordinates are kept abstract (integers) instead of floating point. */
  datatype LatLng = LatLng(lat: int, lng: int)

  datatype Stop = Stop(name: string, lat: int, lng: int)

  /** The two corners handed to `fitBounds`. */
  datatype Bounds = Bounds(corner1: LatLng, corner2: LatLng)

  datatype MarkerStyle = MarkerStyle(radius: nat, color: string, weight: nat, fillOpacity: nat)

  datatype Marker = CircleMarker(at: LatLng, style: MarkerStyle, popup: string)

  datatype Polyline = Polyline(points: seq<LatLng>, color: string, weight: nat, dashArray: string)

  const EndpointColor: string := "#22c55e"
  const StopColor: string := "#1e3a8a"
  const RouteColor: string := "#2370ff"

  function Position(s: Stop): LatLng {
    LatLng(s.lat, s.lng)
  }

  /** The first and the last of `n` stops. */
  predicate IsEndpoint(i: int, n: int) {
    i == 0 || i == n - 1
  }

  /** The options object of the `i`-th of `n` circle markers. */
  function StyleAt(i: int, n: int): MarkerStyle {
    if IsEndpoint(i, n) then MarkerStyle(6, EndpointColor, 2, 1)
    else MarkerStyle(5, StopColor, 2, 1)
  }

  function MarkerAt(stops: seq<Stop>, i: nat): Marker
    requires i < |stops|
  {
    CircleMarker(Position(stops[i]), StyleAt(i, |stops|), stops[i].name)
  }

  /** The markers added for the stops, one per stop, in the order they are added. */
  function Markers(stops: seq<Stop>): (ms: seq<Marker>)
    ensures |ms| == |stops|
    ensures forall i :: 0 <= i < |ms| ==>
      ms[i].at == Position(stops[i]) && ms[i].popup == stops[i].name &&
      ms[i].style.weight == 2 && ms[i].style.fillOpacity == 1
    ensures forall i :: 0 <= i < |ms| ==>
      (ms[i].style.radius == 6 <==> (i == 0 || i == |stops| - 1)) &&
      (ms[i].style.radius == 5 <==> 0 < i < |stops| - 1) &&
      (ms[i].style.color == EndpointColor <==> (i == 0 || i == |stops| - 1)) &&
      (ms[i].style.color == StopColor <==> 0 < i < |stops| - 1)
  {
    seq(|stops|, i requires 0 <= i < |stops| => MarkerAt(stops, i))
  }

  /** The waypoint list: each stop's position, in stop order. */
  function Waypoints(stops: seq<Stop>): (w: seq<LatLng>)
    ensures |w| == |stops|
    ensures forall i :: 0 <= i < |w| ==> w[i] == LatLng(stops[i].lat, stops[i].lng)
  {
    if stops == [] then [] else [Position(stops[0])] + Waypoints(stops[1..])
  }

  /** The dashed straight line drawn when routing fails. */
  function FallbackLine(waypoints: seq<LatLng>): Polyline {
    Polyline(waypoints, RouteColor, 4, "6,6")
  }

  /** How many markers carry the endpoint style. */
  function CountEndpointMarkers(ms: seq<Marker>): nat {
    if ms == [] then 0
    else (if ms[0].style.radius == 6 then 1 else 0) + CountEndpointMarkers(ms[1..])
  }

  lemma {:induction false} CountEndpointMarkersAppend(a: seq<Marker>, b: seq<Marker>)
    ensures CountEndpointMarkers(a + b) == CountEndpointMarkers(a) + CountEndpointMarkers(b)
  {
    if a == [] {
      assert a + b == b;
    } else {
      CountEndpointMarkersAppend(a[1..], b);
      assert (a + b)[1..] == a[1..] + b;
    }
  }

  lemma {:induction false} NoEndpointMarkers(ms: seq<Marker>)
    requires forall i :: 0 <= i < |ms| ==> ms[i].style.radius == 5
    ensures CountEndpointMarkers(ms) == 0
  {
    if ms != [] {
      NoEndpointMarkers(ms[1..]);
    }
  }

  /**
   * Exactly two markers stand out on a route of two or more stops; a single
   * stop is both first and last, so its one marker stands out.
   */
  lemma EndpointMarkerCount(stops: seq<Stop>)
    ensures CountEndpointMarkers(Markers(stops)) == if |stops| >= 2 then 2 else |stops|
  {
    var ms := Markers(stops);
    var n := |stops|;
    if n >= 2 {
      assert ms == [ms[0]] + ms[1..n - 1] + [ms[n - 1]];
      NoEndpointMarkers(ms[1..n - 1]);
      CountEndpointMarkersAppend([ms[0]] + ms[1..n - 1], [ms[n - 1]]);
      CountEndpointMarkersAppend([ms[0]], ms[1..n - 1]);
    } else if n == 1 {
      assert ms == [ms[0]];
    }
  }

  /**
   * The fallback line goes through every stop's position in stop order,
   * dashed and in the route colour.
   */
  lemma FallbackFollowsStops(stops: seq<Stop>)
    ensures var line := FallbackLine(Waypoints(stops));
      |line.points| == |stops| &&
      (forall i :: 0 <= i < |stops| ==> line.points[i] == Position(stops[i])) &&
      line.dashArray == "6,6" && line.color == RouteColor
  {
  }

  /** Leaflet's map object, reduced to what this code sets on it. */
  class LeafletMap {
    var framedBounds: Option<Bounds>
    var markers: seq<Marker>
    var lines: seq<Polyline>
    var dragging: bool
    var touchZoom: bool
    var doubleClickZoom: bool
    var scrollWheelZoom: bool

    /**
     * A new map, created with scroll-wheel zoom turned off. Leaflet enables dragging and
     * double-click zoom by default and touch zoom where the browser supports
     * touch, which `touch` says.
     */
    constructor (touch: bool)
      ensures framedBounds == None && markers == [] && lines == []
      ensures dragging && touchZoom == touch && doubleClickZoom && !scrollWheelZoom
    {
      framedBounds, markers, lines := None, [], [];
      dragging, touchZoom, doubleClickZoom, scrollWheelZoom := true, touch, true, false;
    }

    method FitBounds(b: Bounds)
      modifies this`framedBounds
      ensures framedBounds == Some(b)
    {
      framedBounds := Some(b);
    }

    /** Adds a circle marker layer. */
    method AddMarker(m: Marker)
      modifies this`markers
      ensures markers == old(markers) + [m]
    {
      markers := markers + [m];
    }

    /** Adds a polyline layer. */
    method AddLine(line: Polyline)
      modifies this`lines
      ensures lines == old(lines) + [line]
    {
      lines := lines + [line];
    }
  }

  /** The routing control and its `routingerror` handler, which holds the waypoint list. */
  class RoutingControl {
    const view: LeafletMap
    const waypoints: seq<LatLng>

    constructor (view: LeafletMap, waypoints: seq<LatLng>)
      ensures this.view == view && this.waypoints == waypoints
    {
      this.view := view;
      this.waypoints := waypoints;
    }

    /** Each routing error draws the fallback line through the same waypoints once more. */
    method OnRoutingError()
      modifies view`lines
      ensures view.lines == old(view.lines) + [FallbackLine(waypoints)]
    {
      view.AddLine(FallbackLine(waypoints));
    }
  }

  /**
   * `createRoutedMap`. The page is given as the set of
   * element ids it holds; an absent element gives no map and builds nothing.
   */
  method CreateRoutedMap(document: set<string>, elId: string, stops: seq<Stop>,
                         bounds: Option<Bounds>, touch: bool)
    returns (view: LeafletMap?, control: RoutingControl?)
    ensures elId !in document ==> view == null && control == null
    ensures elId in document ==>
      view != null && control != null && fresh(view) && fresh(control) &&
      control.view == view && control.waypoints == Waypoints(stops)
    ensures view != null ==>
      view.markers == Markers(stops) && view.lines == [] && view.framedBounds == bounds &&
      view.dragging && view.touchZoom == touch && view.doubleClickZoom && !view.scrollWheelZoom
  {
    if elId !in document {
      return null, null;
    }
    var m := new LeafletMap(touch);
    if bounds.Some? {
      m.FitBounds(bounds.value);
    }
    var i := 0;
    while i < |stops|
      invariant 0 <= i <= |stops|
      invariant m.markers == Markers(stops)[..i]
      invariant m.lines == [] && m.framedBounds == bounds
      invariant m.dragging && m.touchZoom == touch && m.doubleClickZoom && !m.scrollWheelZoom
    {
      m.AddMarker(MarkerAt(stops, i));
      i := i + 1;
    }
    assert Markers(stops)[..i] == Markers(stops);
    var c := new RoutingControl(m, Waypoints(stops));
    return m, c;
  }
}
