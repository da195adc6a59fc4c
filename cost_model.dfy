/**
 * The per-edge cost model (src/graph.cpp, getTimeAdjustedSpeed and
 * calculateEdgeWeight): rush-hour derating by road type, and the three
 * ways of turning an edge into a search weight.
 */
module CostModel {
  import opened Roads

  /** Morning rush is hours 7..9, evening rush 17..19, both inclusive. */
  predicate IsRushHour(hour: int)
  {
    (7 <= hour <= 9) || (17 <= hour <= 19)
  }

  /**
   * The factor applied to the posted speed during rush hour. Only the exact
   * type strings below are derated; "_link" types and residential streets are not.
   */
  function RushFactor(roadType: string): (f: real)
    ensures 0.4 <= f <= 1.0
  {
    if roadType == "motorway" || roadType == "trunk" then 0.4
    else if roadType == "primary" then 0.6
    else if roadType == "secondary" || roadType == "tertiary" then 0.8
    else 1.0
  }

  /** The speed (km/h) expected on `e` at `hour`; hours outside 0..23 are not rejected. */
  function TimeAdjustedSpeed(e: Edge, hour: int): (kmh: real)
    ensures !IsRushHour(hour) ==> kmh == e.speedLimit
    ensures e.speedLimit > 0.0 ==> 0.0 < kmh <= e.speedLimit
  {
    var baseSpeed := e.speedLimit;
    var morningRush := 7 <= hour <= 9;
    var eveningRush := 17 <= hour <= 19;
    if morningRush || eveningRush then
      if e.roadType == "motorway" || e.roadType == "trunk" then baseSpeed * 0.4
      else if e.roadType == "primary" then baseSpeed * 0.6
      else if e.roadType == "secondary" || e.roadType == "tertiary" then baseSpeed * 0.8
      else baseSpeed
    else
      baseSpeed
  }

  /** Converts km/h to m/s the way the source does: `kmh * 1000 / 3600`. */
  function MetersPerSecond(kmh: real): (mps: real)
    ensures mps * 3.6 == kmh
    ensures kmh > 0.0 ==> mps > 0.0
  {
    kmh * 1000.0 / 3600.0
  }

  /**
   * The weight of traversing `e` under `mode` at `hour`: meters for
   * Distance, seconds for the other two modes.
   */
  function EdgeWeight(e: Edge, mode: RouteMode, hour: int): (w: real)
    requires Drivable(e)
    ensures e.distance >= 0.0 ==> w >= 0.0
    ensures mode.Distance? ==> w == e.distance
  {
    match mode
    case Distance => e.distance
    case SpeedLimit => e.distance / MetersPerSecond(e.speedLimit)
    case Learned =>
      var adjusted := TimeAdjustedSpeed(e, hour) * e.crowdMultiplier;
      e.distance / MetersPerSecond(adjusted)
  }

  /** Inside a rush window the speed is the posted one times the road type's factor. */
  lemma RushDerating(e: Edge, hour: int)
    requires IsRushHour(hour)
    ensures TimeAdjustedSpeed(e, hour) == e.speedLimit * RushFactor(e.roadType)
    ensures e.roadType in {"motorway", "trunk"} ==> TimeAdjustedSpeed(e, hour) == e.speedLimit * 0.4
    ensures e.roadType == "primary" ==> TimeAdjustedSpeed(e, hour) == e.speedLimit * 0.6
    ensures e.roadType in {"secondary", "tertiary"} ==> TimeAdjustedSpeed(e, hour) == e.speedLimit * 0.8
    ensures (e.roadType in {"motorway_link", "trunk_link", "primary_link", "residential",
                            "living_street", "unclassified"})
            ==> TimeAdjustedSpeed(e, hour) == e.speedLimit
  {
  }

  /** The default query hour, noon, is in neither rush window, so it never derates. */
  lemma DefaultHourNeverDerates(e: Edge)
    ensures !IsRushHour(12)
    ensures TimeAdjustedSpeed(e, 12) == e.speedLimit
  {
  }

  /** Distance and SpeedLimit weights do not depend on the hour; Distance ignores the multiplier too. */
  lemma StaticModesIgnoreHour(e: Edge, h1: int, h2: int, m: real)
    requires Drivable(e) && m > 0.0
    ensures EdgeWeight(e, Distance, h1) == EdgeWeight(e, Distance, h2)
    ensures EdgeWeight(e, SpeedLimit, h1) == EdgeWeight(e, SpeedLimit, h2)
    ensures EdgeWeight(e, Distance, h1) == EdgeWeight(e.(crowdMultiplier := m), Distance, h2)
    ensures EdgeWeight(e, SpeedLimit, h1) == EdgeWeight(e.(crowdMultiplier := m), SpeedLimit, h2)
  {
  }

  /** A multiplier of 1.0 is "normal": off-peak, Learned weighs exactly like SpeedLimit. */
  lemma NormalMultiplierMatchesSpeedLimit(e: Edge, hour: int)
    requires Drivable(e) && e.crowdMultiplier == 1.0 && !IsRushHour(hour)
    ensures EdgeWeight(e, Learned, hour) == EdgeWeight(e, SpeedLimit, hour)
  {
  }

  /** Off-peak, a multiplier m gives exactly distance / (speed * m * 1000 / 3600). */
  lemma LearnedOffPeak(e: Edge, hour: int)
    requires Drivable(e) && !IsRushHour(hour)
    ensures EdgeWeight(e, Learned, hour)
         == e.distance / (e.speedLimit * e.crowdMultiplier * 1000.0 / 3600.0)
  {
  }

  /**
   * For a positive distance, the Learned weight at a rush hour is strictly
   * larger than off-peak exactly for the derated types; for every other
   * type (residential, living_street, ...) it is the same.
   */
  lemma RushHourChangesLearnedWeight(e: Edge, rush: int, calm: int)
    requires Drivable(e) && e.distance > 0.0
    requires IsRushHour(rush) && !IsRushHour(calm)
    ensures RushFactor(e.roadType) < 1.0 ==>
              EdgeWeight(e, Learned, rush) > EdgeWeight(e, Learned, calm)
    ensures RushFactor(e.roadType) == 1.0 ==>
              EdgeWeight(e, Learned, rush) == EdgeWeight(e, Learned, calm)
  {
    var f := RushFactor(e.roadType);
    var calmSpeed := MetersPerSecond(e.speedLimit * 1.0 * e.crowdMultiplier);
    var rushSpeed := MetersPerSecond(e.speedLimit * f * e.crowdMultiplier);
    RushDerating(e, rush);
    LearnedWeightAt(e, rush, f);
    LearnedWeightAt(e, calm, 1.0);
    ScaledSpeed(e.speedLimit, e.crowdMultiplier, f);
    if f < 1.0 {
      assert f * calmSpeed < 1.0 * calmSpeed;
      DivideBySmaller(e.distance, rushSpeed, calmSpeed);
      assert e.distance / rushSpeed > e.distance / calmSpeed;
      assert EdgeWeight(e, Learned, rush) == e.distance / rushSpeed;
      assert EdgeWeight(e, Learned, calm) == e.distance / calmSpeed;
    }
  }

  /** The Learned weight written with the speed factor the hour applies. */
  lemma LearnedWeightAt(e: Edge, hour: int, f: real)
    requires Drivable(e)
    requires TimeAdjustedSpeed(e, hour) == e.speedLimit * f
    ensures EdgeWeight(e, Learned, hour)
         == e.distance / MetersPerSecond(e.speedLimit * f * e.crowdMultiplier)
  {
  }

  /** Scaling the posted speed by `f` in (0, 1] scales the m/s speed likewise. */
  lemma ScaledSpeed(v: real, m: real, f: real)
    requires v > 0.0 && m > 0.0 && 0.0 < f <= 1.0
    ensures 0.0 < MetersPerSecond(v * f * m)
    ensures MetersPerSecond(v * f * m) == f * MetersPerSecond(v * 1.0 * m)
  {
    var c := MetersPerSecond(v * 1.0 * m);
    assert c == v * m * 1000.0 / 3600.0 > 0.0;
    assert MetersPerSecond(v * f * m) == f * c;
  }

  /** Dividing a positive amount by a smaller positive number gives more. */
  lemma DivideBySmaller(x: real, small: real, large: real)
    requires x > 0.0 && 0.0 < small < large
    ensures x / small > x / large
  {
    var a, b := x / large, x / small;
    assert a > 0.0;
    assert a * small < a * large;
    assert a * large == x == b * small;
    assert a * small < b * small;
  }
}
