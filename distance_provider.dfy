/**
 * The control flow around the map provider's driving-route and distance
 * services: up to three calls with a growing back-off between them, then a
 * straight-line fallback when every call failed. The network is replaced by
 * the sequence of outcomes the calls would see, the back-off sleeps by the
 * list of delays the service would wait, and the haversine formula by the
 * straight-line distance (a parameter). Also here: the pair-wise distance
 * matrix, as written and as intended.
 */
module DistanceProvider {
  import opened JsBuiltins
  import HeldKarp

  /** `maxRetries`: the number of calls made before falling back. */
  const MaxRetries: nat := 3

  /** One call to the provider: a usable answer, or anything else (error status, no route, network failure). */
  datatype Attempt<T> = Answer(value: T) | Failure

  /** The outcome of call k; calls beyond the ones listed fail. */
  function CallOutcome<T>(attempts: seq<Attempt<T>>, k: nat): Attempt<T>
  {
    if k < |attempts| then attempts[k] else Failure
  }

  /** The first answering call among the first MaxRetries, or MaxRetries when all of them fail. */
  function FirstAnswer<T>(attempts: seq<Attempt<T>>): (f: nat)
    ensures f <= MaxRetries
    ensures f < MaxRetries ==> CallOutcome(attempts, f).Answer?
    ensures forall k :: 0 <= k < f ==> CallOutcome(attempts, k).Failure?
  {
    FirstAnswerFrom(attempts, 0)
  }

  function FirstAnswerFrom<T>(attempts: seq<Attempt<T>>, k: nat): (f: nat)
    requires k <= MaxRetries
    ensures k <= f <= MaxRetries
    ensures f < MaxRetries ==> CallOutcome(attempts, f).Answer?
    ensures forall j :: k <= j < f ==> CallOutcome(attempts, j).Failure?
    decreases MaxRetries - k
  {
    if k == MaxRetries then k
    else if CallOutcome(attempts, k).Answer? then k
    else FirstAnswerFrom(attempts, k + 1)
  }

  /**
   * The retry loop shared by calculateRoute and calculateDistance: call
   * until an answer arrives, at most MaxRetries times; after failure k the
   * loop waits 1000·k ms unless that was the last call. `calls` is the
   * number of requests sent and `waits` the delays slept, in order.
   */
  method Retry<T>(attempts: seq<Attempt<T>>) returns (r: Option<T>, calls: nat, waits: seq<int>)
    ensures r.Some? <==> FirstAnswer(attempts) < MaxRetries
    ensures r.Some? ==> r == Some(CallOutcome(attempts, FirstAnswer(attempts)).value)
    ensures calls == if r.Some? then FirstAnswer(attempts) + 1 else MaxRetries
    ensures 1 <= calls <= MaxRetries
    ensures |waits| == calls - 1
    ensures forall j :: 0 <= j < |waits| ==> waits[j] == 1000 * (j + 1)
  {
    var retries := 0;
    calls, waits := 0, [];
    while true
      invariant 0 <= retries < MaxRetries && calls == retries && |waits| == retries
      invariant forall k :: 0 <= k < retries ==> CallOutcome(attempts, k).Failure?
      invariant forall j :: 0 <= j < |waits| ==> waits[j] == 1000 * (j + 1)
      decreases MaxRetries - retries
    {
      var outcome := CallOutcome(attempts, retries);
      calls := calls + 1;
      if outcome.Answer? {
        FirstAnswerIs(attempts, retries);
        return Some(outcome.value), calls, waits;
      }
      retries := retries + 1;
      if retries == MaxRetries {
        break;
      }
      waits := waits + [1000 * retries];
    }
    FirstAnswerIs(attempts, MaxRetries);
    r := None;
  }

  /** The first answer is at k when every call before k failed and call k answered (or k is the limit). */
  lemma FirstAnswerIs<T>(attempts: seq<Attempt<T>>, k: nat)
    requires k <= MaxRetries
    requires forall j :: 0 <= j < k ==> CallOutcome(attempts, j).Failure?
    requires k < MaxRetries ==> CallOutcome(attempts, k).Answer?
    ensures FirstAnswer(attempts) == k
  {
    var f := FirstAnswer(attempts);
    var atF := CallOutcome(attempts, f);
  }

  /** Three failures in a row are what it takes to fall back; the service then has slept 1 s and 2 s. */
  lemma FallbackAfterThreeFailures<T>(attempts: seq<Attempt<T>>)
    requires forall k :: 0 <= k < MaxRetries ==> CallOutcome(attempts, k).Failure?
    ensures FirstAnswer(attempts) == MaxRetries
  {
    FirstAnswerIs(attempts, MaxRetries);
  }

  // ---------------------------------------------------------------------------
  // calculateRoute
  // ---------------------------------------------------------------------------

  /** A step of a driving route. */
  datatype Step = Step(instruction: string, distance: real, duration: real, polyline: string)

  /** The first path of a successful driving-route answer: metres, seconds. */
  datatype ProviderPath = ProviderPath(
    distance: real, duration: real, tolls: Option<real>, tollDistance: Option<real>, steps: seq<Step>)

  /** The route handed back to the caller: kilometres, whole minutes. */
  datatype Route = Route(distance: real, duration: int, tolls: real, tollDistance: real, polyline: string, steps: seq<Step>)

  /** `parts.join(sep)`. */
  function Join(parts: seq<string>, sep: char): (s: string)
    ensures parts == [] ==> s == ""
    ensures |parts| == 1 ==> s == parts[0]
    ensures |s| == TotalLength(parts) + (if parts == [] then 0 else |parts| - 1)
  {
    if parts == [] then ""
    else if |parts| == 1 then parts[0]
    else Join(parts[..|parts| - 1], sep) + [sep] + parts[|parts| - 1]
  }

  function TotalLength(parts: seq<string>): nat
  {
    if parts == [] then 0 else TotalLength(parts[..|parts| - 1]) + |parts[|parts| - 1]|
  }

  /** Where part i starts in the joined string: the parts before it, each followed by a separator. */
  function PartStart(parts: seq<string>, i: nat): nat
    requires i <= |parts|
  {
    TotalLength(parts[..i]) + i
  }

  /** Part i of the parts sits in s where the join puts it. */
  predicate PartAt(s: string, parts: seq<string>, i: nat)
    requires i < |parts|
  {
    var start := PartStart(parts, i);
    start + |parts[i]| <= |s| && s[start..start + |parts[i]|] == parts[i]
  }

  /** The separator follows part i in s. */
  predicate SepAfter(s: string, parts: seq<string>, sep: char, i: nat)
    requires i < |parts|
  {
    var end := PartStart(parts, i) + |parts[i]|;
    end < |s| && s[end] == sep
  }

  /** The joined string holds part i at PartStart(parts, i), and a separator after every part but the last. */
  lemma {:induction false} JoinContents(parts: seq<string>, sep: char)
    ensures forall i :: 0 <= i < |parts| ==> PartAt(Join(parts, sep), parts, i)
    ensures forall i :: 0 <= i < |parts| - 1 ==> SepAfter(Join(parts, sep), parts, sep, i)
    decreases |parts|
  {
    if |parts| == 1 {
      assert parts[..0] == [];
      assert PartAt(Join(parts, sep), parts, 0);
    } else if |parts| > 1 {
      var n := |parts| - 1;
      var prefix := parts[..n];
      var last := parts[n];
      JoinContents(prefix, sep);
      assert parts == prefix + [last];
      var j := Join(prefix, sep);
      forall i | 0 <= i < |parts| ensures PartAt(Join(parts, sep), parts, i) {
        if i < n {
          ExtendPart(j, prefix, last, sep, i);
        } else {
          NewPart(j, prefix, last, sep);
        }
      }
      forall i | 0 <= i < |parts| - 1 ensures SepAfter(Join(parts, sep), parts, sep, i) {
        if i < n - 1 {
          ExtendSep(j, prefix, last, sep, i);
        } else {
          NewSep(j, prefix, last, sep);
        }
      }
    }
  }

  lemma PartStartPrefix(prefix: seq<string>, last: string, i: nat)
    requires i <= |prefix|
    ensures PartStart(prefix + [last], i) == PartStart(prefix, i)
  {
    assert (prefix + [last])[..i] == prefix[..i];
  }

  /** Appending a separator and a part leaves the earlier parts where they were. */
  lemma ExtendPart(j: string, prefix: seq<string>, last: string, sep: char, i: nat)
    requires i < |prefix| && PartAt(j, prefix, i)
    ensures PartAt(j + [sep] + last, prefix + [last], i)
  {
    PartStartPrefix(prefix, last, i);
    var a := PartStart(prefix, i);
    var b := a + |prefix[i]|;
    assert (prefix + [last])[i] == prefix[i];
    assert (j + [sep] + last)[a..b] == j[a..b];
  }

  lemma ExtendSep(j: string, prefix: seq<string>, last: string, sep: char, i: nat)
    requires i < |prefix| && SepAfter(j, prefix, sep, i)
    ensures SepAfter(j + [sep] + last, prefix + [last], sep, i)
  {
    PartStartPrefix(prefix, last, i);
    assert (prefix + [last])[i] == prefix[i];
  }

  /** The new part starts right after the new separator. */
  lemma NewPart(j: string, prefix: seq<string>, last: string, sep: char)
    requires prefix != [] && |j| == TotalLength(prefix) + |prefix| - 1
    ensures PartAt(j + [sep] + last, prefix + [last], |prefix|)
  {
    var n := |prefix|;
    var parts, joined := prefix + [last], j + [sep] + last;
    assert parts[..n] == prefix;
    assert PartStart(parts, n) == |j| + 1 && parts[n] == last;
    assert |joined| == |j| + 1 + |last|;
    assert joined[|j| + 1..] == last;
  }

  /** The new separator sits right after the last of the earlier parts. */
  lemma NewSep(j: string, prefix: seq<string>, last: string, sep: char)
    requires prefix != [] && |j| == TotalLength(prefix) + |prefix| - 1
    ensures SepAfter(j + [sep] + last, prefix + [last], sep, |prefix| - 1)
  {
    var n := |prefix|;
    PartStartPrefix(prefix, last, n - 1);
    assert prefix[..n][..n - 1] == prefix[..n - 1];
    assert prefix[..n] == prefix;
    assert PartStart(prefix, n - 1) + |prefix[n - 1]| == |j|;
    assert (prefix + [last])[n - 1] == prefix[n - 1];
  }

  function Polylines(steps: seq<Step>): (r: seq<string>)
    ensures |r| == |steps| && forall i :: 0 <= i < |steps| ==> r[i] == steps[i].polyline
  {
    seq(|steps|, i requires 0 <= i < |steps| => steps[i].polyline)
  }

  /** The answer of the driving-route service, converted to kilometres and whole minutes. */
  function FromPath(p: ProviderPath): (r: Route)
    ensures r.distance * 1000.0 == p.distance
    ensures p.duration / 60.0 <= r.duration as real < p.duration / 60.0 + 1.0
    ensures r.tolls == (if TruthyNumber(p.tolls) then p.tolls.value else 0.0)
    ensures r.tollDistance == (if TruthyNumber(p.tollDistance) then p.tollDistance.value else 0.0)
    ensures r.polyline == Join(Polylines(p.steps), ';') && r.steps == p.steps
  {
    Route(p.distance / 1000.0, Ceil(p.duration / 60.0),
          if TruthyNumber(p.tolls) then p.tolls.value else 0.0,
          if TruthyNumber(p.tollDistance) then p.tollDistance.value else 0.0,
          Join(Polylines(p.steps), ';'), p.steps)
  }

  /** The instruction text of the single fallback step ("straight-line route planning"). */
  const FallbackInstruction: string := "直线距离规划"

  /** The straight-line stand-in for a route of d kilometres. */
  function Fallback(d: real): (r: Route)
    ensures r.distance == d && r.tolls == 0.0 && r.tollDistance == 0.0 && r.polyline == ""
    ensures 2.0 * d <= r.duration as real < 2.0 * d + 1.0
    ensures |r.steps| == 1 && r.steps[0].distance == 1000.0 * d && r.steps[0].polyline == ""
  {
    Route(d, Ceil(d * 2.0), 0.0, 0.0, "", [Step(FallbackInstruction, d * 1000.0, d * 2.0 * 60.0, "")])
  }

  /**
   * The fallback's single step is the whole route: its length in metres is
   * the route's kilometres, and its duration in seconds is the route's
   * minutes before rounding up, so within the last minute of them.
   */
  lemma FallbackStepMatchesRoute(d: real)
    ensures var r := Fallback(d);
            r.steps[0].distance == r.distance * 1000.0
            && r.duration as real * 60.0 - 60.0 < r.steps[0].duration <= r.duration as real * 60.0
  {
  }

  /** The route calculateRoute settles on for these call outcomes. */
  function RouteFor(attempts: seq<Attempt<ProviderPath>>, straightLine: real): Route
  {
    if FirstAnswer(attempts) < MaxRetries then FromPath(CallOutcome(attempts, FirstAnswer(attempts)).value)
    else Fallback(straightLine)
  }

  /**
   * calculateRoute: the provider's route when one of the first three calls
   * answers, the straight-line fallback when all three fail.
   */
  method CalculateRoute(attempts: seq<Attempt<ProviderPath>>, straightLine: real)
    returns (r: Route, calls: nat, waits: seq<int>)
    ensures FirstAnswer(attempts) < MaxRetries ==>
              r == FromPath(CallOutcome(attempts, FirstAnswer(attempts)).value) && calls == FirstAnswer(attempts) + 1
    ensures FirstAnswer(attempts) == MaxRetries ==> r == Fallback(straightLine) && calls == MaxRetries
    ensures |waits| == calls - 1 && forall j :: 0 <= j < |waits| ==> waits[j] == 1000 * (j + 1)
    ensures r == RouteFor(attempts, straightLine)
  {
    var answer;
    answer, calls, waits := Retry(attempts);
    if answer.Some? {
      r := FromPath(answer.value);
    } else {
      r := Fallback(straightLine);
    }
  }

  // ---------------------------------------------------------------------------
  // calculateDistance (the two-argument, asynchronous one)
  // ---------------------------------------------------------------------------

  /** A point as the haversine formula reads it. */
  datatype Point = Point(latitude: real, longitude: real)

  /** One entry of a distance-service answer: metres, seconds. */
  datatype ProviderResult = ProviderResult(distance: real, duration: real)

  /** One entry handed back to the caller: kilometres, whole minutes. */
  datatype Leg = Leg(distance: real, duration: int)

  function FromResults(results: seq<ProviderResult>): (legs: seq<Leg>)
    ensures |legs| == |results|
    ensures forall i :: 0 <= i < |results| ==>
              legs[i].distance * 1000.0 == results[i].distance
              && results[i].duration / 60.0 <= legs[i].duration as real < results[i].duration / 60.0 + 1.0
  {
    seq(|results|, i requires 0 <= i < |results| => Leg(results[i].distance / 1000.0, Ceil(results[i].duration / 60.0)))
  }

  /**
   * The fallback of calculateDistance pairs origins[i] with destinations[i];
   * an origin without a destination makes the haversine formula read a
   * field of `undefined`, which throws.
   */
  function FallbackLegs(origins: seq<Point>, destinations: seq<Point>, straightLine: (Point, Point) -> real): (r: Outcome<seq<Leg>>)
    ensures r.Ok? <==> |origins| <= |destinations|
    ensures r.Ok? ==> |r.value| == |origins|
    ensures r.Ok? ==> forall i :: 0 <= i < |origins| ==>
              var d := straightLine(origins[i], destinations[i]);
              r.value[i].distance == d && 2.0 * d <= r.value[i].duration as real < 2.0 * d + 1.0
  {
    if |origins| > |destinations| then TypeError
    else
      Ok(seq(|origins|, i requires 0 <= i < |origins| =>
        Leg(straightLine(origins[i], destinations[i]), Ceil(straightLine(origins[i], destinations[i]) * 2.0))))
  }

  /**
   * calculateDistance: the provider's entries when one of the first three
   * calls answers, else the pair-wise straight-line fallback.
   */
  method CalculateDistance(origins: seq<Point>, destinations: seq<Point>, attempts: seq<Attempt<seq<ProviderResult>>>,
                           straightLine: (Point, Point) -> real)
    returns (r: Outcome<seq<Leg>>, calls: nat, waits: seq<int>)
    ensures FirstAnswer(attempts) < MaxRetries ==>
              r == Ok(FromResults(CallOutcome(attempts, FirstAnswer(attempts)).value)) && calls == FirstAnswer(attempts) + 1
    ensures FirstAnswer(attempts) == MaxRetries ==>
              r == FallbackLegs(origins, destinations, straightLine) && calls == MaxRetries
    ensures |waits| == calls - 1 && forall j :: 0 <= j < |waits| ==> waits[j] == 1000 * (j + 1)
  {
    var answer;
    answer, calls, waits := Retry(attempts);
    if answer.Some? {
      r := Ok(FromResults(answer.value));
    } else {
      r := FallbackLegs(origins, destinations, straightLine);
    }
  }

  // ---------------------------------------------------------------------------
  // buildDistanceMatrix
  // ---------------------------------------------------------------------------

  /**
   * buildDistanceMatrix as written: the call meant for the asynchronous
   * calculateDistance reaches the four-argument haversine method that
   * shadows it, gets a number back and reads `[0].distance` of it, which
   * is a field of `undefined` and throws. The diagonal never makes the
   * call, so only a matrix with an off-diagonal cell throws.
   */
  method BuildDistanceMatrixAsWritten(stations: seq<Point>) returns (r: Outcome<seq<seq<real>>>)
    ensures r.TypeError? <==> |stations| >= 2
    ensures r.Ok? ==> r.value == if stations == [] then [] else [[0.0]]
  {
    var matrix: seq<seq<real>> := [];
    var i := 0;
    while i < |stations|
      invariant 0 <= i <= |stations|
      invariant matrix == if i == 0 then [] else [[0.0]]
      invariant i <= 1
    {
      var row: seq<real> := [];
      var j := 0;
      while j < |stations|
        invariant 0 <= j <= |stations|
        invariant j <= 1 && (i >= 1 ==> j == 0)
        invariant row == if j == 0 then [] else [0.0]
      {
        if i == j {
          row := row + [0.0];
        } else {
          return TypeError;
        }
        j := j + 1;
      }
      matrix := matrix + [row];
      i := i + 1;
    }
    r := Ok(matrix);
  }

  /**
   * buildDistanceMatrix as intended: 0 on the diagonal and the provider
   * distance of the ordered pair elsewhere; an n x n matrix that the
   * Held–Karp solver accepts, non-negative when the distance is.
   */
  method BuildDistanceMatrix(stations: seq<Point>, distance: (Point, Point) -> real) returns (matrix: seq<seq<real>>)
    ensures HeldKarp.IsMatrix(matrix, |stations|)
    ensures forall i, j :: 0 <= i < |stations| && 0 <= j < |stations| ==>
              matrix[i][j] == if i == j then 0.0 else distance(stations[i], stations[j])
    ensures (forall p, q :: distance(p, q) >= 0.0) ==> HeldKarp.NonNegative(matrix, |stations|)
  {
    matrix := [];
    var i := 0;
    while i < |stations|
      invariant 0 <= i <= |stations| && |matrix| == i
      invariant forall a :: 0 <= a < i ==> |matrix[a]| == |stations|
      invariant forall a, b :: 0 <= a < i && 0 <= b < |stations| ==>
                  matrix[a][b] == if a == b then 0.0 else distance(stations[a], stations[b])
    {
      var row: seq<real> := [];
      var j := 0;
      while j < |stations|
        invariant 0 <= j <= |stations| && |row| == j
        invariant forall b :: 0 <= b < j ==> row[b] == if i == b then 0.0 else distance(stations[i], stations[b])
      {
        if i == j {
          row := row + [0.0];
        } else {
          row := row + [distance(stations[i], stations[j])];
        }
        j := j + 1;
      }
      matrix := matrix + [row];
      i := i + 1;
    }
    if forall p, q :: distance(p, q) >= 0.0 {
      forall a, b | 0 <= a < |stations| && 0 <= b < |stations| ensures matrix[a][b] >= 0.0 {
        assert distance(stations[a], stations[b]) >= 0.0;
      }
    }
  }
}
