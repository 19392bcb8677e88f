/**
 * The delivery schedule of a planned route: one arrival window per leg.
 * Times are integer milliseconds since the epoch; the clock reading the
 * schedule starts from is a parameter. A leg's driving time is the
 * provider's whole number of seconds (the route service divides it by 60
 * to get minutes and multiplies minutes by 60000, which gives back the
 * seconds times 1000). Handling costs 5 minutes per matching package.
 */
module TimeWindows {
  /** 30 minutes of slack after the earliest arrival. */
  const Slack: int := 30 * 60000
  /** Handling time per package at a stop: 5 minutes. */
  const PerPackage: int := 5 * 60000

  /** One leg of the driving route, as the route provider reports it. */
  datatype Segment = Segment(durationSeconds: int)

  /** The two station ids of a package that the schedule looks at. */
  datatype PackageRef = PackageRef(fromStationId: int, toStationId: int)

  datatype Window = Window(stationId: int, earliestArrival: int, latestArrival: int, estimatedDeparture: int)

  /** A package is handled on the leg origin -> destination if it leaves the origin or goes to the destination. */
  predicate Handled(p: PackageRef, origin: int, destination: int)
  {
    p.fromStationId == origin || p.toStationId == destination
  }

  /** `packages.filter(...).length` for one leg. */
  function HandlingCount(packages: seq<PackageRef>, origin: int, destination: int): (c: nat)
    ensures c <= |packages|
    ensures c == 0 <==> forall k :: 0 <= k < |packages| ==> !Handled(packages[k], origin, destination)
    ensures c == |packages| <==> forall k :: 0 <= k < |packages| ==> Handled(packages[k], origin, destination)
  {
    if packages == [] then 0
    else
      var n := |packages| - 1;
      var c := HandlingCount(packages[..n], origin, destination);
      assert forall k :: 0 <= k < n ==> packages[..n][k] == packages[k];
      c + if Handled(packages[n], origin, destination) then 1 else 0
  }

  /** Driving time of a leg in milliseconds. */
  function Travel(s: Segment): int
  {
    s.durationSeconds * 1000
  }

  /** The legs the schedule walks: one per consecutive pair of stations. */
  function Legs(stations: seq<int>): nat
  {
    if |stations| == 0 then 0 else |stations| - 1
  }

  /** Driving plus handling time of leg i. */
  function LegTime(stations: seq<int>, route: seq<Segment>, packages: seq<PackageRef>, i: nat): int
    requires i < Legs(stations) && i < |route|
  {
    Travel(route[i]) + PerPackage * HandlingCount(packages, stations[i], stations[i + 1])
  }

  /** Time spent on the first k legs: the reference the loop is proved against. */
  function Elapsed(stations: seq<int>, route: seq<Segment>, packages: seq<PackageRef>, k: nat): int
    requires k <= Legs(stations) && k <= |route|
  {
    if k == 0 then 0 else Elapsed(stations, route, packages, k - 1) + LegTime(stations, route, packages, k - 1)
  }

  /**
   * The window of leg j: for the leg's destination, the earliest arrival is
   * the previous leg's departure (the start time for the first leg) plus the
   * driving time, the latest is 30 minutes later, and the departure adds 5
   * minutes per handled package.
   */
  predicate WindowAt(stations: seq<int>, route: seq<Segment>, packages: seq<PackageRef>, now: int, windows: seq<Window>, j: nat)
    requires j < |windows| && j < Legs(stations) && j < |route|
  {
    var start := if j == 0 then now else windows[j - 1].estimatedDeparture;
    var arrival := start + Travel(route[j]);
    windows[j] == Window(stations[j + 1], arrival, arrival + Slack,
                         arrival + PerPackage * HandlingCount(packages, stations[j], stations[j + 1]))
  }

  /**
   * calculateTimeWindows: one window per leg, each as WindowAt describes,
   * and every departure equals the start time plus the time of all legs so
   * far.
   */
  method CalculateTimeWindows(stations: seq<int>, route: seq<Segment>, packages: seq<PackageRef>, now: int)
    returns (windows: seq<Window>)
    requires Legs(stations) <= |route|
    ensures |windows| == Legs(stations)
    ensures forall i :: 0 <= i < |windows| ==> WindowAt(stations, route, packages, now, windows, i)
    ensures forall i :: 0 <= i < |windows| ==>
              windows[i].estimatedDeparture == now + Elapsed(stations, route, packages, i + 1)
  {
    windows := [];
    var currentTime := now;
    var i := 0;
    while i < Legs(stations)
      invariant 0 <= i <= Legs(stations) && |windows| == i
      invariant currentTime == now + Elapsed(stations, route, packages, i)
      invariant i > 0 ==> currentTime == windows[i - 1].estimatedDeparture
      invariant forall j :: 0 <= j < i ==> WindowAt(stations, route, packages, now, windows, j)
      invariant forall j :: 0 <= j < i ==> windows[j].estimatedDeparture == now + Elapsed(stations, route, packages, j + 1)
    {
      var origin := stations[i];
      var destination := stations[i + 1];
      var loadingTime := PerPackage * HandlingCount(packages, origin, destination);
      var arrivalTime := currentTime + Travel(route[i]);
      var departureTime := arrivalTime + loadingTime;
      var w := Window(destination, arrivalTime, arrivalTime + Slack, departureTime);
      WindowsExtend(stations, route, packages, now, windows, w);
      windows := windows + [w];
      currentTime := departureTime;
      i := i + 1;
    }
  }

  lemma WindowsExtend(stations: seq<int>, route: seq<Segment>, packages: seq<PackageRef>, now: int, windows: seq<Window>, w: Window)
    requires |windows| < Legs(stations) && Legs(stations) <= |route|
    requires forall j :: 0 <= j < |windows| ==> WindowAt(stations, route, packages, now, windows, j)
    requires WindowAt(stations, route, packages, now, windows + [w], |windows|)
    ensures forall j :: 0 <= j <= |windows| ==> WindowAt(stations, route, packages, now, windows + [w], j)
  {
    forall j | 0 <= j < |windows| ensures WindowAt(stations, route, packages, now, windows + [w], j) {
      assert WindowAt(stations, route, packages, now, windows, j);
      assert (windows + [w])[j] == windows[j];
      if j > 0 {
        assert (windows + [w])[j - 1] == windows[j - 1];
      }
    }
  }

  /** With no negative driving time, the schedule never goes back in time. */
  lemma {:induction false} ElapsedMonotone(stations: seq<int>, route: seq<Segment>, packages: seq<PackageRef>, j: nat, k: nat)
    requires j <= k <= Legs(stations) && k <= |route|
    requires forall i :: 0 <= i < |route| ==> route[i].durationSeconds >= 0
    ensures Elapsed(stations, route, packages, j) <= Elapsed(stations, route, packages, k)
    decreases k - j
  {
    if j < k {
      ElapsedMonotone(stations, route, packages, j, k - 1);
    }
  }

  /**
   * The first k legs take at least their driving time, and at most that
   * plus 5 minutes per package on every leg.
   */
  lemma {:induction false} ElapsedBounds(stations: seq<int>, route: seq<Segment>, packages: seq<PackageRef>, k: nat)
    requires k <= Legs(stations) && k <= |route|
    ensures DrivingTime(route, k) <= Elapsed(stations, route, packages, k)
            <= DrivingTime(route, k) + PerPackage * (k * |packages|)
  {
    if k > 0 {
      ElapsedBounds(stations, route, packages, k - 1);
      var m := |packages|;
      var c := HandlingCount(packages, stations[k - 1], stations[k]);
      var before := (k - 1) * m;
      assert k * m == before + m;
      assert PerPackage * (k * m) == PerPackage * before + PerPackage * m;
      assert PerPackage * c <= PerPackage * m;
    }
  }

  /** Total driving time of the first k legs. */
  function DrivingTime(route: seq<Segment>, k: nat): int
    requires k <= |route|
  {
    if k == 0 then 0 else DrivingTime(route, k - 1) + Travel(route[k - 1])
  }
}
