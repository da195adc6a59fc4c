/**
 * The plain data of the road network (src/graph.h): nodes, directed edges,
 * the three routing modes and the result of a route query.
 * Ids are unbounded integers (the source's `long long` never wraps here);
 * coordinates, distances and speeds are reals (no IEEE rounding).
 */
module Roads {

  /** A map node: its id and its WGS84 position in degrees. */
  datatype Node = Node(id: int, lat: real, lon: real)

  /**
   * A directed edge, owned by the adjacency list of its origin.
   * `distance` is in meters, `speedLimit` in km/h; `crowdMultiplier`
   * scales the expected speed (1.0 means "normal").
   */
  datatype Edge = Edge(
    to: int,
    distance: real,
    speedLimit: real,
    roadType: string,
    crowdMultiplier: real)

  /** Exactly three ways of weighting an edge. */
  datatype RouteMode = Distance | SpeedLimit | Learned

  /** The answer to one route query: node ids from start to end, or empty. */
  datatype RouteResult = RouteResult(
    path: seq<int>,
    totalDistance: real,   // meters
    estimatedTime: real,   // seconds
    mode: RouteMode,
    modeName: string)

  /** The display name the search stores for each mode. */
  function ModeName(mode: RouteMode): (name: string)
    ensures |name| > 0
  {
    match mode
    case Distance => "Pure Distance"
    case SpeedLimit => "Speed Limit (Traditional GPS)"
    case Learned => "Learned Patterns (Advanced)"
  }

  /** An edge whose speeds are positive, so that every weight formula is defined. */
  predicate Drivable(e: Edge)
  {
    e.speedLimit > 0.0 && e.crowdMultiplier > 0.0
  }
}
