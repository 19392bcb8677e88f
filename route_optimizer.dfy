/**
 * The planning logic of optimizeRoute: the two early answers (no packages,
 * no package that fits the vehicle), the capacity filter, the station list
 * driver location - pick-ups and drop-offs - driver destination, and the
 * route and earnings that go with it; the per-kilometre tariffs used for
 * estimates; and the total length of a station sequence. Distances are
 * kilometres; the straight-line distance is a parameter.
 */
module RouteOptimizer {
  import opened JsBuiltins
  import Freight
  import DistanceProvider

  type Point = DistanceProvider.Point

  /** The vehicle's limits, in cm^3 and kg. */
  const MaxVolume: real := 8000000.0
  const MaxWeight: real := 2000.0

  // ---------------------------------------------------------------------------
  // Tariffs
  // ---------------------------------------------------------------------------

  /** `6 / 50`: yuan per kilometre. */
  const BaseRate: real := 6.0 / 50.0

  /** calculateEstimatedIncome: 6 yuan per 50 km, pro rata. */
  function EstimatedIncome(distance: real): (income: real)
    ensures income * 50.0 == distance * 6.0
  {
    distance / 50.0 * 6.0
  }

  /** calculateEstimatedDuration: minutes at 50 km/h. */
  function EstimatedDuration(distance: real): (minutes: real)
    ensures minutes * 50.0 == distance * 60.0
  {
    distance / 50.0 * 60.0
  }

  /** calculateEstimatedEarnings: the pro-rata income rounded to whole cents (halves up). */
  function EstimatedEarnings(distance: real): (e: real)
    ensures (e * 100.0).Floor as real == e * 100.0
    ensures EstimatedIncome(distance) - 0.005 < e <= EstimatedIncome(distance) + 0.005
  {
    Round(distance * BaseRate * 100.0) as real / 100.0
  }

  /** The income estimate is the duration estimate at 0.1 yuan per minute. */
  lemma IncomePerMinute(distance: real)
    ensures EstimatedIncome(distance) == EstimatedDuration(distance) / 10.0
  {
  }

  /**
   * The pro-rata income never exceeds the stepped base fare of the freight
   * tariff for the same distance in metres, and falls short of it by less
   * than one step's fare.
   */
  lemma IncomeAgainstBaseFreight(distance: real)
    ensures EstimatedIncome(distance) <= Freight.BaseFreight(distance * 1000.0)
            < EstimatedIncome(distance) + Freight.BaseFare
  {
    assert distance * 1000.0 / Freight.BaseDistance * Freight.BaseFare == EstimatedIncome(distance);
  }

  /** The straight-line fallback budgets 2 minutes per kilometre, never less than the 50 km/h estimate. */
  lemma FallbackSlowerThanEstimate(distance: real)
    requires distance >= 0.0
    ensures DistanceProvider.Fallback(distance).duration as real >= EstimatedDuration(distance)
  {
  }

  // ---------------------------------------------------------------------------
  // calculateTotalDistance
  // ---------------------------------------------------------------------------

  /** The length of the station sequence: the sum over consecutive pairs. */
  function PathLength(stations: seq<Point>, distance: (Point, Point) -> real): real
  {
    if |stations| < 2 then 0.0
    else
      var n := |stations| - 1;
      PathLength(stations[..n], distance) + distance(stations[n - 1], stations[n])
  }

  /** calculateTotalDistance: the accumulator loop over consecutive pairs. */
  method CalculateTotalDistance(stations: seq<Point>, distance: (Point, Point) -> real) returns (total: real)
    ensures total == PathLength(stations, distance)
    ensures (forall p, q :: distance(p, q) >= 0.0) ==> total >= 0.0
  {
    total := 0.0;
    var i := 0;
    while i < |stations| - 1
      invariant 0 <= i && (i == 0 || i < |stations|)
      invariant total == PathLength(stations[..if i < |stations| then i + 1 else 0], distance)
      invariant (forall p, q :: distance(p, q) >= 0.0) ==> total >= 0.0
    {
      ghost var next := stations[..i + 2];
      assert next[..i + 1] == stations[..i + 1];
      assert next[i] == stations[i] && next[i + 1] == stations[i + 1];
      total := total + distance(stations[i], stations[i + 1]);
      i := i + 1;
    }
    assert stations[..if i < |stations| then i + 1 else 0] == stations;
  }

  /** Lengths add up when a sequence is cut at a shared station. */
  lemma {:induction false} PathLengthSplit(a: seq<Point>, b: seq<Point>, distance: (Point, Point) -> real)
    requires |a| >= 1 && |b| >= 1 && a[|a| - 1] == b[0]
    ensures PathLength(a + b[1..], distance) == PathLength(a, distance) + PathLength(b, distance)
    decreases |b|
  {
    if |b| == 1 {
      assert a + b[1..] == a;
    } else {
      var n := |b| - 1;
      var c := a + b[1..];
      PathLengthSplit(a, b[..n], distance);
      assert c[..|c| - 1] == a + b[..n][1..];
      assert c[|c| - 2] == b[n - 1] by {
        if n == 1 {
          assert c[|c| - 2] == a[|a| - 1];
        }
      }
    }
  }

  // ---------------------------------------------------------------------------
  // optimizeRoute
  // ---------------------------------------------------------------------------

  /** The fields of a package the planner reads; a missing field is None. */
  datatype PackageSpec = PackageSpec(
    length: Option<real>, width: Option<real>, height: Option<real>, weight: Option<real>,
    currentStation: Option<Point>, destinationStation: Option<Point>)

  /** The driver's position and where the driver is heading. */
  datatype Driver = Driver(location: Point, destination: Point)

  /** `x || 0` on a number. */
  function OrZero(x: Option<real>): real
  {
    if TruthyNumber(x) then x.value else 0.0
  }

  /** The box volume `(length || 0) * (width || 0) * (height || 0)`. */
  function BoxVolume(p: PackageSpec): real
  {
    OrZero(p.length) * OrZero(p.width) * OrZero(p.height)
  }

  /** The filter of optimizeRoute: the box volume and the weight within the vehicle's limits. */
  predicate FitsVehicle(p: PackageSpec)
  {
    BoxVolume(p) <= MaxVolume && OrZero(p.weight) <= MaxWeight
  }

  /** `packages.filter(FitsVehicle)`. */
  function ValidPackages(packages: seq<PackageSpec>): (r: seq<PackageSpec>)
    ensures |r| <= |packages|
    ensures forall i :: 0 <= i < |r| ==> FitsVehicle(r[i])
  {
    if packages == [] then []
    else
      var n := |packages| - 1;
      ValidPackages(packages[..n]) + (if FitsVehicle(packages[n]) then [packages[n]] else [])
  }

  /** Every valid package is one of the input packages. */
  lemma {:induction false} ValidPackagesFromInput(packages: seq<PackageSpec>, k: nat)
    requires k < |ValidPackages(packages)|
    ensures ValidPackages(packages)[k] in packages
  {
    var n := |packages| - 1;
    var init := ValidPackages(packages[..n]);
    if k < |init| {
      ValidPackagesFromInput(packages[..n], k);
      assert ValidPackages(packages)[k] == init[k];
    } else {
      assert ValidPackages(packages)[k] == packages[n];
    }
  }

  /** Every input package that fits the vehicle is kept. */
  lemma {:induction false} ValidPackagesKeepFitting(packages: seq<PackageSpec>, j: nat)
    requires j < |packages| && FitsVehicle(packages[j])
    ensures packages[j] in ValidPackages(packages)
  {
    var n := |packages| - 1;
    if j < n {
      assert packages[..n][j] == packages[j];
      ValidPackagesKeepFitting(packages[..n], j);
    }
  }

  /** A package with no dimensions and no weight passes the filter: every missing value counts as 0. */
  lemma BlankPackageFits(stationA: Option<Point>, stationB: Option<Point>)
    ensures FitsVehicle(PackageSpec(None, None, None, None, stationA, stationB))
  {
  }

  /** The stops a package adds: its current station, then its destination station, each if present. */
  function StopsOf(p: PackageSpec): seq<Point>
  {
    (if p.currentStation.Some? then [p.currentStation.value] else [])
    + (if p.destinationStation.Some? then [p.destinationStation.value] else [])
  }

  /** The stops of the packages, in package order. */
  function Stops(packages: seq<PackageSpec>): seq<Point>
  {
    if packages == [] then [] else Stops(packages[..|packages| - 1]) + StopsOf(packages[|packages| - 1])
  }

  /** The point is the package's current or destination station. */
  predicate IsStopOf(p: PackageSpec, s: Point)
  {
    p.currentStation == Some(s) || p.destinationStation == Some(s)
  }

  /** Some package has the point as its current or destination station. */
  predicate HasStop(packages: seq<PackageSpec>, s: Point)
  {
    exists k :: 0 <= k < |packages| && IsStopOf(packages[k], s)
  }

  /** A point is a stop exactly when it is the current or destination station of some package. */
  lemma {:induction false} StopsMembers(packages: seq<PackageSpec>, s: Point)
    ensures s in Stops(packages) <==> HasStop(packages, s)
  {
    if packages != [] {
      var n := |packages| - 1;
      var init := packages[..n];
      StopsMembers(init, s);
      StopsMembersStep(init, packages[n], s);
      assert init + [packages[n]] == packages;
    }
  }

  lemma StopsMembersStep(init: seq<PackageSpec>, p: PackageSpec, s: Point)
    requires s in Stops(init) <==> HasStop(init, s)
    ensures s in Stops(init + [p]) <==> HasStop(init + [p], s)
  {
    var all := init + [p];
    assert all[..|init|] == init;
    assert Stops(all) == Stops(init) + StopsOf(p);
    assert s in StopsOf(p) <==> IsStopOf(p, s);
    if HasStop(init, s) {
      var k :| 0 <= k < |init| && IsStopOf(init[k], s);
      assert all[k] == init[k];
    }
    if HasStop(all, s) && !IsStopOf(p, s) {
      var k :| 0 <= k < |all| && IsStopOf(all[k], s);
      assert k < |init| && init[k] == all[k];
    }
    assert IsStopOf(p, s) ==> IsStopOf(all[|init|], s);
  }

  /**
   * Step 3 of optimizeRoute: the driver's location, then for every valid
   * package its current station and its destination station when present,
   * then the driver's destination.
   */
  method StationList(driver: Driver, valid: seq<PackageSpec>) returns (stations: seq<Point>)
    ensures stations == [driver.location] + Stops(valid) + [driver.destination]
  {
    stations := [driver.location];
    var i := 0;
    while i < |valid|
      invariant 0 <= i <= |valid|
      invariant stations == [driver.location] + Stops(valid[..i])
    {
      var pkg := valid[i];
      assert valid[..i + 1][..i] == valid[..i];
      if pkg.currentStation.Some? {
        stations := stations + [pkg.currentStation.value];
      }
      if pkg.destinationStation.Some? {
        stations := stations + [pkg.destinationStation.value];
      }
      i := i + 1;
    }
    assert valid[..i] == valid;
    stations := stations + [driver.destination];
  }

  /** The answers of optimizeRoute, told apart by their message. */
  datatype Verdict = NoPackages | NoValidPackages | Planned

  /** The result of optimizeRoute. */
  datatype Plan = Plan(
    verdict: Verdict, packages: seq<PackageSpec>, stations: seq<Point>,
    route: DistanceProvider.Route, estimatedEarnings: real)

  /**
   * optimizeRoute. The direct route is always computed first. With no
   * packages, or none that fits the vehicle, the plan is the direct route
   * between the driver's location and destination. Otherwise the plan visits
   * the station list of the valid packages, and its route is computed from
   * the first station to the last with the rest as waypoints; the
   * straight-line fallback only sees the two ends. The earnings estimate
   * always belongs to the route that is returned.
   */
  method OptimizeRoute(packages: Option<seq<PackageSpec>>, driver: Driver,
                       directAttempts: seq<DistanceProvider.Attempt<DistanceProvider.ProviderPath>>,
                       routeAttempts: seq<DistanceProvider.Attempt<DistanceProvider.ProviderPath>>,
                       straightLine: (Point, Point) -> real)
    returns (plan: Plan)
    ensures plan.estimatedEarnings == EstimatedEarnings(plan.route.distance)
    ensures |plan.stations| >= 2
    ensures plan.stations[0] == driver.location && plan.stations[|plan.stations| - 1] == driver.destination
    ensures plan.verdict == NoPackages <==> packages.None? || packages.value == []
    ensures plan.verdict == NoValidPackages <==>
              packages.Some? && packages.value != [] && ValidPackages(packages.value) == []
    ensures plan.verdict != Planned ==>
              plan.packages == [] && plan.stations == [driver.location, driver.destination]
              && plan.route == DistanceProvider.RouteFor(directAttempts, straightLine(driver.location, driver.destination))
    ensures plan.verdict == Planned ==>
              packages.Some? && plan.packages == ValidPackages(packages.value)
              && plan.stations == [driver.location] + Stops(plan.packages) + [driver.destination]
              && plan.route == DistanceProvider.RouteFor(routeAttempts, straightLine(driver.location, driver.destination))
  {
    var direct, _, _ := DistanceProvider.CalculateRoute(directAttempts, straightLine(driver.location, driver.destination));
    if packages.None? || |packages.value| == 0 {
      return Plan(NoPackages, [], [driver.location, driver.destination], direct, EstimatedEarnings(direct.distance));
    }
    var valid := ValidPackages(packages.value);
    if |valid| == 0 {
      return Plan(NoValidPackages, [], [driver.location, driver.destination], direct, EstimatedEarnings(direct.distance));
    }
    var stations := StationList(driver, valid);
    var first, last := stations[0], stations[|stations| - 1];
    var details, _, _ := DistanceProvider.CalculateRoute(routeAttempts, straightLine(first, last));
    plan := Plan(Planned, valid, stations, details, EstimatedEarnings(details.distance));
  }

  /**
   * When the provider fails on both requests, the planned route is as long
   * as the direct one: the fallback ignores the waypoints.
   */
  lemma FallbackIgnoresWaypoints(driver: Driver,
                                 directAttempts: seq<DistanceProvider.Attempt<DistanceProvider.ProviderPath>>,
                                 routeAttempts: seq<DistanceProvider.Attempt<DistanceProvider.ProviderPath>>,
                                 straightLine: (Point, Point) -> real)
    requires DistanceProvider.FirstAnswer(directAttempts) == DistanceProvider.MaxRetries
    requires DistanceProvider.FirstAnswer(routeAttempts) == DistanceProvider.MaxRetries
    ensures var d := straightLine(driver.location, driver.destination);
            DistanceProvider.RouteFor(routeAttempts, d) == DistanceProvider.RouteFor(directAttempts, d)
  {
  }

  /** Every station between the two ends is a station of a package that fits the vehicle. */
  lemma {:induction false} PlannedStopsComeFromValidPackages(packages: seq<PackageSpec>, s: Point)
    requires s in Stops(ValidPackages(packages))
    ensures exists k :: 0 <= k < |packages| && FitsVehicle(packages[k]) && IsStopOf(packages[k], s)
  {
    if packages == [] {
      assert false;
    } else {
      var n := |packages| - 1;
      var init, p := packages[..n], packages[n];
      var kept := ValidPackages(init);
      if FitsVehicle(p) {
        assert ValidPackages(packages) == kept + [p];
        StopsAppend(kept, p);
      } else {
        assert ValidPackages(packages) == kept;
      }
      if s in Stops(kept) {
        PlannedStopsComeFromValidPackages(init, s);
        var k :| 0 <= k < |init| && FitsVehicle(init[k]) && IsStopOf(init[k], s);
        assert packages[k] == init[k];
      } else {
        assert FitsVehicle(p) && s in StopsOf(p);
        assert IsStopOf(packages[n], s);
      }
    }
  }

  lemma StopsAppend(kept: seq<PackageSpec>, p: PackageSpec)
    ensures Stops(kept + [p]) == Stops(kept) + StopsOf(p)
  {
    assert (kept + [p])[..|kept|] == kept;
  }

}
