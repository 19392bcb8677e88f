/**
 * Capacity grouping of the route service: groupPackagesByStations buckets
 * the packages by (origin station id, destination station id), in order of
 * first appearance, and stable-sorts the buckets by decreasing package
 * count; groupStationsByCapacity then packs the buckets next-fit into
 * vehicle loads of at most 8 000 000 cm^3 and 2000 kg and returns, for each
 * load, the list of stations to visit, starting at the driver's station.
 */
module CapacityGrouping {

  /** Vehicle volume limit, in cm^3 (8 m^3). */
  const MaxVolume: real := 8000000.0
  /** Vehicle weight limit, in kg (2 t). */
  const MaxWeight: real := 2000.0

  /** The station record built from a package's flattened columns. */
  datatype StationInfo = StationInfo(id: nat, name: string, longitude: real, latitude: real)

  /** A package row as the grouping reads it. */
  datatype Package = Package(from: StationInfo, to: StationInfo, volume: real, weight: real)

  /** A bucket: the stations of its first package and its packages in input order. */
  datatype Bucket = Bucket(fromStation: StationInfo, toStation: StationInfo, packages: seq<Package>)

  /** The `${from_station_id}-${to_station_id}` key; on integer ids it is one-to-one with the pair. */
  function Key(p: Package): (nat, nat)
  {
    (p.from.id, p.to.id)
  }

  function BucketKey(b: Bucket): (nat, nat)
  {
    (b.fromStation.id, b.toStation.id)
  }

  /** The packages carrying the key, in input order. */
  function Select(packages: seq<Package>, key: (nat, nat)): (r: seq<Package>)
    ensures |r| <= |packages|
    ensures forall p :: p in r ==> p in packages && Key(p) == key
  {
    if packages == [] then []
    else
      var last := packages[|packages| - 1];
      Select(packages[..|packages| - 1], key) + (if Key(last) == key then [last] else [])
  }

  /** The position of the first package with the key, or |packages| when there is none. */
  function FirstIndex(packages: seq<Package>, key: (nat, nat)): (f: nat)
    ensures f <= |packages|
    ensures f < |packages| ==> Key(packages[f]) == key
    ensures forall k :: 0 <= k < f && k < |packages| ==> Key(packages[k]) != key
  {
    if packages == [] then 0
    else
      var n := |packages| - 1;
      var f := FirstIndex(packages[..n], key);
      if f < n then f else if Key(packages[n]) == key then n else n + 1
  }

  /** A package with the key exists exactly when the first index is a position. */
  lemma FirstIndexFound(packages: seq<Package>, key: (nat, nat))
    ensures FirstIndex(packages, key) < |packages| <==>
            exists k :: 0 <= k < |packages| && Key(packages[k]) == key
  {
  }

  // ---------------------------------------------------------------------------
  // groupPackagesByStations
  // ---------------------------------------------------------------------------

  /** What the bucketing loop has built after reading packages: see BucketByStations. */
  ghost predicate Buckets(packages: seq<Package>, buckets: seq<Bucket>)
  {
    BucketsHold(packages, buckets) && BucketsOrdered(packages, buckets) && BucketsCover(packages, buckets)
  }

  /** Each bucket holds exactly the packages of its key, with its first package's stations. */
  ghost predicate BucketsHold(packages: seq<Package>, buckets: seq<Bucket>)
  {
    forall j :: 0 <= j < |buckets| ==> IsBucketOf(packages, buckets[j])
  }

  ghost predicate IsBucketOf(packages: seq<Package>, b: Bucket)
  {
    var f := FirstIndex(packages, BucketKey(b));
    f < |packages|
    && b.packages == Select(packages, BucketKey(b))
    && b.fromStation == packages[f].from && b.toStation == packages[f].to
  }

  /** Buckets come in the order their keys first occur (so no key has two). */
  ghost predicate BucketsOrdered(packages: seq<Package>, buckets: seq<Bucket>)
  {
    forall i, j :: 0 <= i < j < |buckets| ==>
      FirstIndex(packages, BucketKey(buckets[i])) < FirstIndex(packages, BucketKey(buckets[j]))
  }

  /** Every package's key has a bucket. */
  ghost predicate BucketsCover(packages: seq<Package>, buckets: seq<Bucket>)
  {
    forall k :: 0 <= k < |packages| ==> HasBucket(buckets, Key(packages[k]))
  }

  ghost predicate HasBucket(buckets: seq<Bucket>, key: (nat, nat))
  {
    exists j :: 0 <= j < |buckets| && BucketKey(buckets[j]) == key
  }

  lemma SelectAppend(packages: seq<Package>, p: Package, key: (nat, nat))
    ensures Select(packages + [p], key) == Select(packages, key) + (if Key(p) == key then [p] else [])
    ensures FirstIndex(packages + [p], key) ==
            if FirstIndex(packages, key) < |packages| then FirstIndex(packages, key)
            else if Key(p) == key then |packages| else |packages| + 1
  {
    assert (packages + [p])[..|packages|] == packages;
  }

  lemma SelectMissing(packages: seq<Package>, key: (nat, nat))
    requires FirstIndex(packages, key) == |packages|
    ensures Select(packages, key) == []
  {
    if packages != [] {
      SelectMissing(packages[..|packages| - 1], key);
    }
  }

  /** A key with no bucket yet has not occurred. */
  lemma FirstIndexAbsent(packages: seq<Package>, buckets: seq<Bucket>, key: (nat, nat))
    requires BucketsCover(packages, buckets)
    requires forall j :: 0 <= j < |buckets| ==> BucketKey(buckets[j]) != key
    ensures FirstIndex(packages, key) == |packages| && Select(packages, key) == []
  {
    forall k | 0 <= k < |packages| ensures Key(packages[k]) != key {
      assert HasBucket(buckets, Key(packages[k]));
    }
    SelectMissing(packages, key);
  }

  /** How one more package changes the bucket sequence: a new bucket at the end, or one bucket grows. */
  ghost predicate StepOf(packages: seq<Package>, pkg: Package, buckets: seq<Bucket>, b: nat, buckets': seq<Bucket>)
  {
    (b == |buckets| && FirstIndex(packages, Key(pkg)) == |packages|
     && buckets' == buckets + [Bucket(pkg.from, pkg.to, [pkg])])
    || (b < |buckets| && BucketKey(buckets[b]) == Key(pkg)
        && buckets' == buckets[b := buckets[b].(packages := buckets[b].packages + [pkg])])
  }

  /** Only the bucket at b carries the package's key. */
  lemma OtherKeys(packages: seq<Package>, pkg: Package, buckets: seq<Bucket>, b: nat, buckets': seq<Bucket>, j: nat)
    requires BucketsHold(packages, buckets) && BucketsOrdered(packages, buckets)
    requires StepOf(packages, pkg, buckets, b, buckets')
    requires j < |buckets| && j != b
    ensures j < |buckets'| && buckets'[j] == buckets[j] && BucketKey(buckets[j]) != Key(pkg)
  {
    if b < |buckets| {
      assert IsBucketOf(packages, buckets[j]) && IsBucketOf(packages, buckets[b]);
      if j < b {
        assert FirstIndex(packages, BucketKey(buckets[j])) < FirstIndex(packages, BucketKey(buckets[b]));
      } else {
        assert FirstIndex(packages, BucketKey(buckets[b])) < FirstIndex(packages, BucketKey(buckets[j]));
      }
    }
  }

  lemma BucketContents(packages: seq<Package>, pkg: Package, buckets: seq<Bucket>, b: nat, buckets': seq<Bucket>, j: nat)
    requires BucketsHold(packages, buckets) && BucketsOrdered(packages, buckets)
    requires StepOf(packages, pkg, buckets, b, buckets')
    requires j < |buckets'|
    ensures IsBucketOf(packages + [pkg], buckets'[j])
  {
    var ps := packages + [pkg];
    SelectAppend(packages, pkg, BucketKey(buckets'[j]));
    if j == |buckets| {
      SelectMissing(packages, Key(pkg));
    } else {
      assert IsBucketOf(packages, buckets[j]);
      if j != b {
        OtherKeys(packages, pkg, buckets, b, buckets', j);
      }
      assert ps[FirstIndex(packages, BucketKey(buckets[j]))] == packages[FirstIndex(packages, BucketKey(buckets[j]))];
    }
  }

  lemma BucketOrder(packages: seq<Package>, pkg: Package, buckets: seq<Bucket>, b: nat, buckets': seq<Bucket>, i: nat, j: nat)
    requires BucketsHold(packages, buckets) && BucketsOrdered(packages, buckets)
    requires StepOf(packages, pkg, buckets, b, buckets')
    requires i < j < |buckets'|
    ensures FirstIndex(packages + [pkg], BucketKey(buckets'[i])) < FirstIndex(packages + [pkg], BucketKey(buckets'[j]))
  {
    SelectAppend(packages, pkg, BucketKey(buckets'[i]));
    SelectAppend(packages, pkg, BucketKey(buckets'[j]));
    assert BucketKey(buckets'[i]) == BucketKey(buckets[i]);
    assert IsBucketOf(packages, buckets[i]);
    if j < |buckets| {
      assert BucketKey(buckets'[j]) == BucketKey(buckets[j]);
      assert IsBucketOf(packages, buckets[j]);
    }
  }

  lemma BucketCover(packages: seq<Package>, pkg: Package, buckets: seq<Bucket>, b: nat, buckets': seq<Bucket>, k: nat)
    requires BucketsCover(packages, buckets) && StepOf(packages, pkg, buckets, b, buckets')
    requires k < |packages| + 1
    ensures HasBucket(buckets', Key((packages + [pkg])[k]))
  {
    if k < |packages| {
      assert (packages + [pkg])[k] == packages[k];
      assert HasBucket(buckets, Key(packages[k]));
      var j :| 0 <= j < |buckets| && BucketKey(buckets[j]) == Key(packages[k]);
      assert BucketKey(buckets'[j]) == BucketKey(buckets[j]);
    } else {
      assert BucketKey(buckets'[b]) == Key(pkg);
    }
  }

  /** Reading one more package keeps the bucket invariant. */
  lemma BucketsStep(packages: seq<Package>, pkg: Package, buckets: seq<Bucket>, b: nat, buckets': seq<Bucket>)
    requires Buckets(packages, buckets) && StepOf(packages, pkg, buckets, b, buckets')
    ensures Buckets(packages + [pkg], buckets')
  {
    forall j | 0 <= j < |buckets'| ensures IsBucketOf(packages + [pkg], buckets'[j]) {
      BucketContents(packages, pkg, buckets, b, buckets', j);
    }
    forall i, j | 0 <= i < j < |buckets'|
      ensures FirstIndex(packages + [pkg], BucketKey(buckets'[i])) < FirstIndex(packages + [pkg], BucketKey(buckets'[j]))
    {
      BucketOrder(packages, pkg, buckets, b, buckets', i, j);
    }
    forall k | 0 <= k < |packages + [pkg]| ensures HasBucket(buckets', Key((packages + [pkg])[k])) {
      BucketCover(packages, pkg, buckets, b, buckets', k);
    }
  }

  /** The Map from key to bucket: every bucket's key is mapped to its position. */
  ghost predicate IndexOf(index: map<(nat, nat), nat>, buckets: seq<Bucket>)
  {
    (forall key :: key in index ==> index[key] < |buckets| && BucketKey(buckets[index[key]]) == key)
    && (forall j :: 0 <= j < |buckets| ==> BucketKey(buckets[j]) in index)
  }

  lemma IndexStep(index: map<(nat, nat), nat>, index': map<(nat, nat), nat>, packages: seq<Package>, pkg: Package,
                  buckets: seq<Bucket>, b: nat, buckets': seq<Bucket>)
    requires IndexOf(index, buckets) && StepOf(packages, pkg, buckets, b, buckets')
    requires Key(pkg) in index ==> index[Key(pkg)] == b && index' == index
    requires Key(pkg) !in index ==> index' == index[Key(pkg) := b]
    ensures IndexOf(index', buckets')
  {
    forall j | 0 <= j < |buckets'| ensures BucketKey(buckets'[j]) in index' {
      if j < |buckets| {
        assert BucketKey(buckets'[j]) == BucketKey(buckets[j]);
      }
    }
  }

  /**
   * The Map-and-push loop of groupPackagesByStations: one bucket per key,
   * opened by the key's first package (which supplies the two station
   * records), holding every package with that key in input order; buckets
   * appear in the order their keys first occur.
   */
  method BucketByStations(packages: seq<Package>) returns (buckets: seq<Bucket>)
    ensures Buckets(packages, buckets)
  {
    buckets := [];
    var index: map<(nat, nat), nat> := map[];
    var i := 0;
    while i < |packages|
      invariant 0 <= i <= |packages|
      invariant Buckets(packages[..i], buckets)
      invariant IndexOf(index, buckets)
    {
      assert packages[..i + 1] == packages[..i] + [packages[i]];
      buckets, index := AddPackage(packages[..i], packages[i], buckets, index);
      i := i + 1;
    }
    assert packages[..i] == packages;
  }

  /** One round of the loop: open the key's bucket if the Map lacks it, then push the package. */
  method AddPackage(seen: seq<Package>, pkg: Package, buckets: seq<Bucket>, index: map<(nat, nat), nat>)
    returns (buckets': seq<Bucket>, index': map<(nat, nat), nat>)
    requires Buckets(seen, buckets) && IndexOf(index, buckets)
    ensures Buckets(seen + [pkg], buckets') && IndexOf(index', buckets')
  {
    var key := Key(pkg);
    buckets', index' := buckets, index;
    if key !in index {
      FirstIndexAbsent(seen, buckets, key);
      index' := index'[key := |buckets'|];
      buckets' := buckets' + [Bucket(pkg.from, pkg.to, [])];
    }
    var b := index'[key];
    buckets' := buckets'[b := buckets'[b].(packages := buckets'[b].packages + [pkg])];
    if b == |buckets| {
      assert [] + [pkg] == [pkg];
      assert buckets'[b] == Bucket(pkg.from, pkg.to, [pkg]);
      assert buckets' == buckets + [Bucket(pkg.from, pkg.to, [pkg])];
    }
    assert StepOf(seen, pkg, buckets, b, buckets');
    BucketsStep(seen, pkg, buckets, b, buckets');
    IndexStep(index, index', seen, pkg, buckets, b, buckets');
  }

  function Count(b: Bucket): nat
  {
    |b.packages|
  }

  /**
   * Where the comparator `b.packages.length - a.packages.length` of a
   * stable sort puts a before b: more packages first, and among buckets of
   * equal size the one whose key occurred first.
   */
  ghost predicate Precedes(packages: seq<Package>, a: Bucket, b: Bucket)
  {
    Count(a) > Count(b)
    || (Count(a) == Count(b) && FirstIndex(packages, BucketKey(a)) < FirstIndex(packages, BucketKey(b)))
  }

  ghost predicate Ranked(packages: seq<Package>, r: seq<Bucket>)
  {
    forall i, j :: 0 <= i < j < |r| ==> Precedes(packages, r[i], r[j])
  }

  /** Place x in front of the first bucket that is not larger. */
  function InsertByCount(x: Bucket, r: seq<Bucket>): (r': seq<Bucket>)
    ensures multiset(r') == multiset(r) + multiset{x}
  {
    if r == [] || Count(r[0]) <= Count(x) then [x] + r
    else
      assert r == [r[0]] + r[1..];
      [r[0]] + InsertByCount(x, r[1..])
  }

  /**
   * `groups.sort((a, b) => b.packages.length - a.packages.length)`: a
   * stable sort by decreasing package count (an insertion sort stands for
   * the engine's algorithm; stability fixes the result).
   */
  function SortByCount(buckets: seq<Bucket>): (r: seq<Bucket>)
    ensures multiset(r) == multiset(buckets)
  {
    if buckets == [] then []
    else
      assert buckets == [buckets[0]] + buckets[1..];
      InsertByCount(buckets[0], SortByCount(buckets[1..]))
  }

  lemma {:induction false} InsertRanked(packages: seq<Package>, x: Bucket, r: seq<Bucket>)
    requires Ranked(packages, r)
    requires forall y :: y in r ==> FirstIndex(packages, BucketKey(x)) < FirstIndex(packages, BucketKey(y))
    ensures Ranked(packages, InsertByCount(x, r))
    decreases |r|
  {
    if r == [] || Count(r[0]) <= Count(x) {
      var r' := [x] + r;
      forall i, j | 0 <= i < j < |r'| ensures Precedes(packages, r'[i], r'[j]) {
        if i == 0 {
          assert r'[j] == r[j - 1] && r'[j] in r;
          if j > 1 {
            assert Precedes(packages, r[0], r[j - 1]);
          }
        } else {
          assert Precedes(packages, r[i - 1], r[j - 1]);
        }
      }
    } else {
      var t := r[1..];
      assert Ranked(packages, t) by {
        forall i, j | 0 <= i < j < |t| ensures Precedes(packages, t[i], t[j]) {
          assert Precedes(packages, r[i + 1], r[j + 1]);
        }
      }
      InsertRanked(packages, x, t);
      var ins := InsertByCount(x, t);
      var r' := [r[0]] + ins;
      forall i, j | 0 <= i < j < |r'| ensures Precedes(packages, r'[i], r'[j]) {
        if i == 0 {
          assert r'[j] in multiset(ins);
          assert r'[j] == x || r'[j] in t;
          if r'[j] != x {
            var k :| 0 <= k < |t| && t[k] == r'[j];
            assert Precedes(packages, r[0], r[k + 1]);
          }
        } else {
          assert r'[i] == ins[i - 1] && r'[j] == ins[j - 1];
        }
      }
    }
  }

  /** Sorting buckets that come in order of first occurrence ranks them as Precedes says. */
  lemma {:induction false} SortRanked(packages: seq<Package>, buckets: seq<Bucket>)
    requires BucketsOrdered(packages, buckets)
    ensures Ranked(packages, SortByCount(buckets))
    decreases |buckets|
  {
    if buckets != [] {
      var t := buckets[1..];
      assert BucketsOrdered(packages, t) by {
        forall i, j | 0 <= i < j < |t|
          ensures FirstIndex(packages, BucketKey(t[i])) < FirstIndex(packages, BucketKey(t[j]))
        {
          assert t[i] == buckets[i + 1] && t[j] == buckets[j + 1];
        }
      }
      SortRanked(packages, t);
      var sorted := SortByCount(t);
      forall y | y in sorted
        ensures FirstIndex(packages, BucketKey(buckets[0])) < FirstIndex(packages, BucketKey(y))
      {
        assert y in multiset(t);
        var k :| 0 <= k < |t| && t[k] == y;
        assert buckets[k + 1] == y;
      }
      InsertRanked(packages, buckets[0], sorted);
    }
  }

  /**
   * groupPackagesByStations: the buckets of BucketByStations, sorted by
   * decreasing package count with ties in order of first occurrence. Every
   * group holds exactly the packages of its key, every package has a
   * group, and no key has two.
   */
  method GroupPackagesByStations(packages: seq<Package>) returns (groups: seq<Bucket>)
    ensures forall j :: 0 <= j < |groups| ==> IsBucketOf(packages, groups[j])
    ensures forall k :: 0 <= k < |packages| ==> HasBucket(groups, Key(packages[k]))
    ensures forall i, j :: 0 <= i < j < |groups| ==> Count(groups[i]) >= Count(groups[j])
    ensures forall i, j :: 0 <= i < j < |groups| && Count(groups[i]) == Count(groups[j]) ==>
              FirstIndex(packages, BucketKey(groups[i])) < FirstIndex(packages, BucketKey(groups[j]))
  {
    var buckets := BucketByStations(packages);
    groups := SortByCount(buckets);
    SortRanked(packages, buckets);
    PermutedBuckets(packages, buckets, groups);
  }

  /** Reordering the buckets keeps them the buckets of the packages. */
  lemma PermutedBuckets(packages: seq<Package>, buckets: seq<Bucket>, groups: seq<Bucket>)
    requires BucketsHold(packages, buckets) && BucketsCover(packages, buckets)
    requires multiset(groups) == multiset(buckets)
    ensures BucketsHold(packages, groups) && BucketsCover(packages, groups)
  {
    forall j | 0 <= j < |groups| ensures IsBucketOf(packages, groups[j]) {
      assert groups[j] in multiset(buckets);
      var k :| 0 <= k < |buckets| && buckets[k] == groups[j];
    }
    forall k | 0 <= k < |packages| ensures HasBucket(groups, Key(packages[k])) {
      assert HasBucket(buckets, Key(packages[k]));
      var j :| 0 <= j < |buckets| && BucketKey(buckets[j]) == Key(packages[k]);
      assert buckets[j] in multiset(groups);
      var i :| 0 <= i < |groups| && groups[i] == buckets[j];
      assert BucketKey(groups[i]) == Key(packages[k]);
    }
  }

  lemma {:induction false} SelectContains(packages: seq<Package>, k: nat)
    requires k < |packages|
    ensures packages[k] in Select(packages, Key(packages[k]))
    decreases |packages|
  {
    var n := |packages| - 1;
    if k < n {
      assert packages[k] == packages[..n][k];
      SelectContains(packages[..n], k);
    }
  }

  /** The groups partition the packages: each package sits in exactly one group. */
  lemma GroupsPartition(packages: seq<Package>, groups: seq<Bucket>, k: nat)
    requires forall j :: 0 <= j < |groups| ==> IsBucketOf(packages, groups[j])
    requires forall k :: 0 <= k < |packages| ==> HasBucket(groups, Key(packages[k]))
    requires forall i, j :: 0 <= i < j < |groups| && Count(groups[i]) == Count(groups[j]) ==>
               FirstIndex(packages, BucketKey(groups[i])) < FirstIndex(packages, BucketKey(groups[j]))
    requires k < |packages|
    ensures exists j :: 0 <= j < |groups| && packages[k] in groups[j].packages
    ensures forall i, j :: (0 <= i < |groups| && 0 <= j < |groups|
              && packages[k] in groups[i].packages && packages[k] in groups[j].packages) ==> i == j
  {
    var j :| 0 <= j < |groups| && BucketKey(groups[j]) == Key(packages[k]);
    assert IsBucketOf(packages, groups[j]);
    SelectContains(packages, k);
    forall i1, i2 | 0 <= i1 < |groups| && 0 <= i2 < |groups|
      && packages[k] in groups[i1].packages && packages[k] in groups[i2].packages
      ensures i1 == i2
    {
      assert IsBucketOf(packages, groups[i1]) && IsBucketOf(packages, groups[i2]);
      assert BucketKey(groups[i1]) == BucketKey(groups[i2]);
      assert groups[i1].packages == groups[i2].packages;
    }
  }

  // ---------------------------------------------------------------------------
  // groupStationsByCapacity
  // ---------------------------------------------------------------------------

  /** `packages.reduce((sum, pkg) => sum + pkg.volume, 0)` */
  function SumVolume(packages: seq<Package>): real
  {
    if packages == [] then 0.0 else SumVolume(packages[..|packages| - 1]) + packages[|packages| - 1].volume
  }

  /** `packages.reduce((sum, pkg) => sum + pkg.weight, 0)` */
  function SumWeight(packages: seq<Package>): real
  {
    if packages == [] then 0.0 else SumWeight(packages[..|packages| - 1]) + packages[|packages| - 1].weight
  }

  /** The running totalVolume of a load: the bucket volumes added one by one. */
  function RunVolume(run: seq<Bucket>): real
  {
    if run == [] then 0.0 else RunVolume(run[..|run| - 1]) + SumVolume(run[|run| - 1].packages)
  }

  function RunWeight(run: seq<Bucket>): real
  {
    if run == [] then 0.0 else RunWeight(run[..|run| - 1]) + SumWeight(run[|run| - 1].packages)
  }

  predicate Fits(volume: real, weight: real)
  {
    volume <= MaxVolume && weight <= MaxWeight
  }

  /** `stations.find(s => s.id === id)` finds something. */
  predicate ContainsId(stations: seq<StationInfo>, id: nat)
  {
    exists k :: 0 <= k < |stations| && stations[k].id == id
  }

  lemma ContainsIdAppend(stations: seq<StationInfo>, x: StationInfo)
    ensures forall id :: ContainsId(stations + [x], id) <==> ContainsId(stations, id) || x.id == id
  {
    forall id | ContainsId(stations + [x], id) ensures ContainsId(stations, id) || x.id == id {
      var k :| 0 <= k < |stations + [x]| && (stations + [x])[k].id == id;
      if k < |stations| {
        assert stations[k] == (stations + [x])[k];
      }
    }
    forall id | ContainsId(stations, id) ensures ContainsId(stations + [x], id) {
      var k :| 0 <= k < |stations| && stations[k].id == id;
      assert (stations + [x])[k] == stations[k];
    }
    assert (stations + [x])[|stations|] == x;
  }

  /** The currentGroup object. */
  datatype Load = Load(stations: seq<StationInfo>, packages: seq<Package>, totalVolume: real, totalWeight: real)

  /** The packages of a run of buckets, in order. */
  function RunPackages(run: seq<Bucket>): seq<Package>
  {
    if run == [] then [] else RunPackages(run[..|run| - 1]) + run[|run| - 1].packages
  }

  function Flatten(runs: seq<seq<Bucket>>): seq<Bucket>
  {
    if runs == [] then [] else Flatten(runs[..|runs| - 1]) + runs[|runs| - 1]
  }

  /** Both stations of every bucket of the run are on the list (by id). */
  predicate Covers(stations: seq<StationInfo>, run: seq<Bucket>)
  {
    forall b :: b in run ==> ContainsId(stations, b.fromStation.id) && ContainsId(stations, b.toStation.id)
  }

  /** Every station after the first is a station of some bucket of the run. */
  predicate DrawnFrom(stations: seq<StationInfo>, run: seq<Bucket>)
  {
    stations == [] || forall st :: st in stations[1..] ==> st in RunStations(run)
  }

  /** The from and to stations of the run's buckets, bucket by bucket. */
  function RunStations(run: seq<Bucket>): seq<StationInfo>
  {
    if run == [] then [] else RunStations(run[..|run| - 1]) + [run[|run| - 1].fromStation, run[|run| - 1].toStation]
  }

  predicate StationOf(station: StationInfo, run: seq<Bucket>)
  {
    exists b :: b in run && (station == b.fromStation || station == b.toStation)
  }

  /** RunStations lists exactly the stations some bucket of the run starts or ends at. */
  lemma {:induction false} RunStationsMembers(run: seq<Bucket>, station: StationInfo)
    ensures station in RunStations(run) <==> StationOf(station, run)
    decreases |run|
  {
    if run != [] {
      var init, last := run[..|run| - 1], run[|run| - 1];
      assert run == init + [last];
      RunStationsMembers(init, station);
      if StationOf(station, run) && station != last.fromStation && station != last.toStation {
        var b :| b in run && (station == b.fromStation || station == b.toStation);
        assert b in init;
      }
      if StationOf(station, init) {
        var b :| b in init && (station == b.fromStation || station == b.toStation);
        assert b in run;
      }
    }
  }

  /** A load built from the run of buckets, starting at the driver's station s0. */
  predicate LoadOf(s0: StationInfo, load: Load, run: seq<Bucket>)
  {
    |load.stations| >= 1 && load.stations[0] == s0
    && load.packages == RunPackages(run)
    && load.totalVolume == RunVolume(run) && load.totalWeight == RunWeight(run)
    && (Fits(load.totalVolume, load.totalWeight) || |run| == 1)
    && Covers(load.stations, run) && DrawnFrom(load.stations, run)
  }

  /** An emitted list: the driver's station, then stations of its run, all of the run's stations present. */
  predicate Emitted(s0: StationInfo, list: seq<StationInfo>, run: seq<Bucket>)
  {
    |list| >= 2 && list[0] == s0 && |run| >= 1
    && (Fits(RunVolume(run), RunWeight(run)) || |run| == 1)
    && Covers(list, run) && DrawnFrom(list, run)
  }

  /** Next-fit: the first bucket of each load did not fit on top of the load before it. */
  predicate NextFit(runs: seq<seq<Bucket>>)
  {
    forall i, j :: 0 <= i < |runs| && 0 <= j < |runs| && j == i + 1 ==> Overflows(runs[i], runs[j])
  }

  /** The first bucket of next would have taken prev over a limit. */
  predicate Overflows(prev: seq<Bucket>, next: seq<Bucket>)
  {
    |next| >= 1
    && !Fits(RunVolume(prev) + SumVolume(next[0].packages), RunWeight(prev) + SumWeight(next[0].packages))
  }

  /** Folding a bucket into the open load, once its new station list is known to fit the longer run. */
  lemma FoldIn(s0: StationInfo, load: Load, run: seq<Bucket>, g: Bucket, stations': seq<StationInfo>)
    requires LoadOf(s0, load, run)
    requires Fits(load.totalVolume + SumVolume(g.packages), load.totalWeight + SumWeight(g.packages))
    requires |stations'| >= 1 && stations'[0] == s0
    requires Covers(stations', run + [g]) && DrawnFrom(stations', run + [g])
    ensures LoadOf(s0, Load(stations', load.packages + g.packages,
                            load.totalVolume + SumVolume(g.packages), load.totalWeight + SumWeight(g.packages)),
                   run + [g])
  {
    var run' := run + [g];
    assert run'[..|run'| - 1] == run;
  }

  lemma FoldInCovers(stations: seq<StationInfo>, run: seq<Bucket>, g: Bucket, s1: seq<StationInfo>, stations': seq<StationInfo>)
    requires Covers(stations, run)
    requires s1 == if ContainsId(stations, g.fromStation.id) then stations else stations + [g.fromStation]
    requires stations' == if ContainsId(s1, g.toStation.id) then s1 else s1 + [g.toStation]
    ensures Covers(stations', run + [g])
  {
    ContainsIdAppend(stations, g.fromStation);
    ContainsIdAppend(s1, g.toStation);
    forall b | b in run + [g] ensures ContainsId(stations', b.fromStation.id) && ContainsId(stations', b.toStation.id) {
      if b != g {
        assert b in run;
      }
    }
  }

  lemma FoldInDrawn(stations: seq<StationInfo>, run: seq<Bucket>, g: Bucket, stations': seq<StationInfo>)
    requires DrawnFrom(stations, run)
    requires stations' == stations || stations' == stations + [g.fromStation] || stations' == stations + [g.toStation]
             || stations' == stations + [g.fromStation, g.toStation]
    ensures DrawnFrom(stations', run + [g])
  {
    assert (run + [g])[..|run|] == run;
    assert RunStations(run + [g]) == RunStations(run) + [g.fromStation, g.toStation];
    if stations' != [] {
      forall st | st in stations'[1..] ensures st in RunStations(run + [g]) {
        if stations != [] && st in stations[1..] {
          assert st in RunStations(run);
        }
      }
    }
  }

  /** Closing a load with more than the driver's station: it is emitted as the next run. */
  lemma CloseEmits(s0: StationInfo, load: Load, run: seq<Bucket>, runs: seq<seq<Bucket>>)
    requires LoadOf(s0, load, run) && |load.stations| > 1
    requires NextFit(runs)
    requires |runs| > 0 ==> Overflows(runs[|runs| - 1], run)
    ensures Emitted(s0, load.stations, run)
    ensures NextFit(runs + [run])
  {
    assert load.stations[1] in load.stations[1..];
    NextFitAppend(runs, run);
  }

  /** A run that overflowed the last one extends a next-fit sequence of runs. */
  lemma NextFitAppend(runs: seq<seq<Bucket>>, run: seq<Bucket>)
    requires NextFit(runs)
    requires |runs| > 0 ==> Overflows(runs[|runs| - 1], run)
    ensures NextFit(runs + [run])
  {
    var runs' := runs + [run];
    forall i, j | 0 <= i < |runs'| && 0 <= j < |runs'| && j == i + 1 ensures Overflows(runs'[i], runs'[j]) {
      assert runs'[i] == runs[i];
      if j < |runs| {
        assert runs'[j] == runs[j];
      }
    }
  }

  /** A load that still holds only the driver's station carried only buckets from it to itself. */
  lemma CloseDrops(s0: StationInfo, load: Load, run: seq<Bucket>)
    requires LoadOf(s0, load, run) && |load.stations| <= 1
    ensures SelfBound(s0, run)
  {
    forall b | b in run ensures b.fromStation.id == s0.id && b.toStation.id == s0.id {
      assert ContainsId(load.stations, b.fromStation.id) && ContainsId(load.stations, b.toStation.id);
    }
  }

  /** What the loop of groupStationsByCapacity keeps true after the buckets seen so far. */
  ghost predicate PackState(s0: StationInfo, seen: seq<Bucket>, lists: seq<seq<StationInfo>>, runs: seq<seq<Bucket>>,
                            dropped: seq<Bucket>, current: Load, run: seq<Bucket>, initial: bool)
  {
    seen == dropped + Flatten(runs) + run
    && LoadOf(s0, current, run)
    && (initial ==> dropped == [] && runs == [] && Fits(current.totalVolume, current.totalWeight))
    && (!initial ==> |current.stations| > 1)
    && SelfBound(s0, dropped)
    && Fits(RunVolume(dropped), RunWeight(dropped))
    && |lists| == |runs|
    && (forall j :: 0 <= j < |lists| ==> Emitted(s0, lists[j], runs[j]))
    && NextFit(runs)
    && (|runs| > 0 ==> Overflows(runs[|runs| - 1], run))
  }

  /** Every bucket goes from the station s0 to itself (by id). */
  predicate SelfBound(s0: StationInfo, run: seq<Bucket>)
  {
    forall b :: b in run ==> b.fromStation.id == s0.id && b.toStation.id == s0.id
  }

  // ---------------------------------------------------------------------------
  // The station list of a load
  // ---------------------------------------------------------------------------

  /** The scan of `stations.find(s => s.id === id)`, taken from the back. */
  predicate Listed(stations: seq<StationInfo>, id: nat)
  {
    stations != [] && (stations[|stations| - 1].id == id || Listed(stations[..|stations| - 1], id))
  }

  lemma {:induction false} ListedIsContainsId(stations: seq<StationInfo>, id: nat)
    ensures Listed(stations, id) <==> ContainsId(stations, id)
    decreases |stations|
  {
    if stations != [] {
      var n := |stations| - 1;
      ListedIsContainsId(stations[..n], id);
      ContainsIdAppend(stations[..n], stations[n]);
      assert stations[..n] + [stations[n]] == stations;
    }
  }

  /** `if (!stations.find(s => s.id === station.id)) stations.push(station)` */
  function AddIfAbsent(stations: seq<StationInfo>, station: StationInfo): seq<StationInfo>
  {
    if Listed(stations, station.id) then stations else stations + [station]
  }

  /** The push keeps the list as it was and appends the station exactly when its id was not listed yet. */
  lemma AddIfAbsentSpec(stations: seq<StationInfo>, station: StationInfo)
    ensures var r := AddIfAbsent(stations, station);
            && |r| == |stations| + (if ContainsId(stations, station.id) then 0 else 1)
            && r[..|stations|] == stations
            && (!ContainsId(stations, station.id) ==> r[|stations|] == station)
            && ContainsId(r, station.id)
  {
    ListedIsContainsId(stations, station.id);
    ContainsIdAppend(stations, station);
    assert (stations + [station])[..|stations|] == stations;
  }

  /** The two pushes of a bucket that joins a load: its origin, then its destination. */
  function AddStations(stations: seq<StationInfo>, b: Bucket): seq<StationInfo>
  {
    AddIfAbsent(AddIfAbsent(stations, b.fromStation), b.toStation)
  }

  /**
   * The station list of a load with the run of buckets: the opening load
   * starts from [s0] and every bucket joins it; a seeded load starts as
   * [s0, from, to] of its first bucket, pushed without a check, and the
   * other buckets join it.
   */
  function LoadStations(s0: StationInfo, run: seq<Bucket>, seeded: bool): seq<StationInfo>
    requires seeded ==> |run| >= 1
    decreases |run|
  {
    if run == [] then [s0]
    else if seeded && |run| == 1 then [s0, run[0].fromStation, run[0].toStation]
    else AddStations(LoadStations(s0, run[..|run| - 1], seeded), run[|run| - 1])
  }

  /**
   * Each emitted list is the station list of its run. A load is seeded
   * when it is not the first one emitted, or when its first bucket did not
   * fit on top of the dropped buckets (none, if the very first bucket was
   * too large on its own); otherwise it is the opening load.
   */
  predicate ListsFollowRuns(s0: StationInfo, lists: seq<seq<StationInfo>>, runs: seq<seq<Bucket>>, dropped: seq<Bucket>)
  {
    |lists| == |runs|
    && forall j :: 0 <= j < |runs| ==>
         |runs[j]| >= 1 && lists[j] == LoadStations(s0, runs[j], j > 0 || Overflows(dropped, runs[0]))
  }

  /** No station id is listed twice. */
  predicate DistinctIds(stations: seq<StationInfo>)
  {
    forall i, j :: 0 <= i < j < |stations| ==> stations[i].id != stations[j].id
  }

  lemma AddIfAbsentDistinct(stations: seq<StationInfo>, station: StationInfo)
    requires DistinctIds(stations)
    ensures DistinctIds(AddIfAbsent(stations, station))
  {
    ListedIsContainsId(stations, station.id);
  }

  /** The find-before-push rule keeps the ids of a list distinct, so the opening load lists each station once. */
  lemma {:induction false} OpeningListDistinct(s0: StationInfo, run: seq<Bucket>)
    ensures DistinctIds(LoadStations(s0, run, false))
    decreases |run|
  {
    if run != [] {
      var n := |run| - 1;
      var before := LoadStations(s0, run[..n], false);
      OpeningListDistinct(s0, run[..n]);
      AddIfAbsentDistinct(before, run[n].fromStation);
      AddIfAbsentDistinct(AddIfAbsent(before, run[n].fromStation), run[n].toStation);
    }
  }

  /** A bucket joining a load adds its stations to the load's list. */
  lemma LoadStationsAppend(s0: StationInfo, run: seq<Bucket>, g: Bucket, seeded: bool)
    requires seeded ==> |run| >= 1
    ensures LoadStations(s0, run + [g], seeded) == AddStations(LoadStations(s0, run, seeded), g)
  {
    var r := run + [g];
    assert r[..|run|] == run && r[|run|] == g;
  }

  /** What the loop keeps about the station lists, besides PackState; stations is the open load's list. */
  ghost predicate PackOrder(s0: StationInfo, lists: seq<seq<StationInfo>>, runs: seq<seq<Bucket>>,
                            dropped: seq<Bucket>, stations: seq<StationInfo>, run: seq<Bucket>, initial: bool)
  {
    (!initial ==> |run| >= 1)
    && stations == LoadStations(s0, run, !initial)
    && (initial && run != [] ==> Fits(SumVolume(run[0].packages), SumWeight(run[0].packages)))
    && (!initial && runs == [] ==> Overflows(dropped, run))
    && ListsFollowRuns(s0, lists, runs, dropped)
    && (dropped != [] && |runs| > 0 ==> Overflows(dropped, runs[0]))
  }

  /** Before the first bucket nothing is emitted or dropped and the open load is empty. */
  lemma OpenState(s0: StationInfo)
    ensures PackState(s0, [], [], [], [], Load([s0], [], 0.0, 0.0), [], true)
  {
  }

  /** Before the first bucket the open load lists only the driver's station. */
  lemma OpenOrder(s0: StationInfo)
    ensures PackOrder(s0, [], [], [], [s0], [], true)
  {
  }

  /** A bucket that fits joins the open load. */
  lemma FoldOrder(s0: StationInfo, lists: seq<seq<StationInfo>>, runs: seq<seq<Bucket>>,
                  dropped: seq<Bucket>, stations: seq<StationInfo>, run: seq<Bucket>, initial: bool, g: Bucket)
    requires PackOrder(s0, lists, runs, dropped, stations, run, initial)
    requires Fits(RunVolume(run) + SumVolume(g.packages), RunWeight(run) + SumWeight(g.packages))
    ensures PackOrder(s0, lists, runs, dropped, AddStations(stations, g), run + [g], initial)
  {
    LoadStationsAppend(s0, run, g, !initial);
    if run == [] {
      assert (run + [g])[0] == g;
    } else {
      assert (run + [g])[0] == run[0];
    }
  }

  /** Closing a load with more than the driver's station appends its list, which follows its run. */
  lemma CloseOrder(s0: StationInfo, seen: seq<Bucket>, lists: seq<seq<StationInfo>>, runs: seq<seq<Bucket>>,
                   dropped: seq<Bucket>, current: Load, run: seq<Bucket>, initial: bool)
    requires PackState(s0, seen, lists, runs, dropped, current, run, initial)
    requires PackOrder(s0, lists, runs, dropped, current.stations, run, initial)
    requires |current.stations| > 1
    ensures |run| >= 1
    ensures ListsFollowRuns(s0, lists + [current.stations], runs + [run], dropped)
    ensures dropped != [] ==> Overflows(dropped, (runs + [run])[0])
  {
    var runs' := runs + [run];
    var lists' := lists + [current.stations];
    var n := |runs|;
    assert runs'[n] == run && lists'[n] == current.stations;
    if n > 0 {
      assert runs'[0] == runs[0];
    } else if initial {
      assert RunVolume([]) == 0.0 && RunWeight([]) == 0.0;
      assert !Overflows(dropped, run);
    }
    forall j | 0 <= j < |runs'|
      ensures |runs'[j]| >= 1 && lists'[j] == LoadStations(s0, runs'[j], j > 0 || Overflows(dropped, runs'[0]))
    {
      if j < n {
        assert runs'[j] == runs[j] && lists'[j] == lists[j];
      }
    }
  }

  /** The open load held only the driver's station: it is the opening load, and the bucket overflowed it. */
  lemma DropFacts(s0: StationInfo, seen: seq<Bucket>, lists: seq<seq<StationInfo>>, runs: seq<seq<Bucket>>,
                  dropped: seq<Bucket>, current: Load, run: seq<Bucket>, initial: bool, g: Bucket)
    requires PackState(s0, seen, lists, runs, dropped, current, run, initial)
    requires |current.stations| <= 1
    requires !Fits(current.totalVolume + SumVolume(g.packages), current.totalWeight + SumWeight(g.packages))
    ensures lists == [] && runs == []
    ensures Overflows(run, [g])
  {
    assert [g][0] == g;
  }

  /** Dropping the opening load leaves no list, and the bucket seeds the next load. */
  lemma DropOrder(s0: StationInfo, lists: seq<seq<StationInfo>>, runs: seq<seq<Bucket>>, run: seq<Bucket>, g: Bucket)
    requires lists == [] && runs == []
    requires Overflows(run, [g])
    ensures PackOrder(s0, lists, runs, run, [s0, g.fromStation, g.toStation], [g], false)
  {
  }

  /** After the open load was emitted, the bucket seeds the next load. */
  lemma SeedOrder(s0: StationInfo, lists: seq<seq<StationInfo>>, runs: seq<seq<Bucket>>, dropped: seq<Bucket>, g: Bucket)
    requires ListsFollowRuns(s0, lists, runs, dropped) && |runs| >= 1
    requires dropped != [] ==> Overflows(dropped, runs[0])
    ensures PackOrder(s0, lists, runs, dropped, [s0, g.fromStation, g.toStation], [g], false)
  {
    assert [g][0] == g;
  }

  /**
   * The loop of groupStationsByCapacity over the sorted buckets. A bucket
   * joins the open load when both new totals stay within the limits (its
   * stations are appended unless a station with that id is already on the
   * list); otherwise the open load is closed, kept only if it has more than
   * the driver's station, and a new load is seeded with [s0, from, to] and
   * that bucket, whatever its size. The loads form the runs of buckets;
   * only the very first load can be dropped, and only when every bucket in
   * it goes from the driver's station to itself.
   */
  method PackGroups(s0: StationInfo, groups: seq<Bucket>)
    returns (lists: seq<seq<StationInfo>>, ghost runs: seq<seq<Bucket>>, ghost dropped: seq<Bucket>)
    ensures Packed(s0, groups, lists, runs, dropped)
  {
    lists, runs, dropped := [], [], [];
    var current := Load([s0], [], 0.0, 0.0);
    ghost var run: seq<Bucket> := [];
    ghost var initial := true;
    ghost var seen: seq<Bucket> := [];
    OpenState(s0);
    OpenOrder(s0);
    var i := 0;
    while i < |groups|
      invariant 0 <= i <= |groups| && seen == groups[..i]
      invariant PackState(s0, seen, lists, runs, dropped, current, run, initial)
      invariant PackOrder(s0, lists, runs, dropped, current.stations, run, initial)
    {
      TakeOneMore(groups, seen, i);
      lists, runs, dropped, current, run, initial := PackStep(s0, seen, groups[i], lists, runs, dropped, current, run, initial);
      seen := seen + [groups[i]];
      i := i + 1;
    }
    TakeAll(groups, seen, i);
    lists, runs, dropped := CloseLoad(s0, seen, lists, runs, dropped, current, run, initial);
  }

  lemma TakeAll<T>(s: seq<T>, prefix: seq<T>, i: nat)
    requires i == |s| && prefix == s[..i]
    ensures prefix == s
  {
  }

  lemma TakeOneMore<T>(s: seq<T>, prefix: seq<T>, i: nat)
    requires i < |s| && prefix == s[..i]
    ensures prefix + [s[i]] == s[..i + 1]
  {
  }

  /** One iteration: fold the bucket into the open load, or close that load and seed a new one. */
  method PackStep(s0: StationInfo, ghost seen: seq<Bucket>, group: Bucket, lists: seq<seq<StationInfo>>, ghost runs: seq<seq<Bucket>>,
                  ghost dropped: seq<Bucket>, current: Load, ghost run: seq<Bucket>, ghost initial: bool)
    returns (lists': seq<seq<StationInfo>>, ghost runs': seq<seq<Bucket>>, ghost dropped': seq<Bucket>,
             current': Load, ghost run': seq<Bucket>, ghost initial': bool)
    requires PackState(s0, seen, lists, runs, dropped, current, run, initial)
    requires PackOrder(s0, lists, runs, dropped, current.stations, run, initial)
    ensures PackState(s0, seen + [group], lists', runs', dropped', current', run', initial')
    ensures PackOrder(s0, lists', runs', dropped', current'.stations, run', initial')
  {
    var groupVolume := SumVolume(group.packages);
    var groupWeight := SumWeight(group.packages);
    if current.totalVolume + groupVolume <= MaxVolume && current.totalWeight + groupWeight <= MaxWeight {
      current', run' := FoldGroup(s0, seen, group, lists, runs, dropped, current, run, initial);
      lists', runs', dropped', initial' := lists, runs, dropped, initial;
    } else {
      lists', runs', dropped', current', run' := StartLoad(s0, seen, group, lists, runs, dropped, current, run, initial);
      initial' := false;
    }
  }

  /** The bucket fits: its stations join the list unless already there by id, its packages join the load. */
  method FoldGroup(s0: StationInfo, ghost seen: seq<Bucket>, group: Bucket, lists: seq<seq<StationInfo>>, ghost runs: seq<seq<Bucket>>,
                   ghost dropped: seq<Bucket>, current: Load, ghost run: seq<Bucket>, ghost initial: bool)
    returns (current': Load, ghost run': seq<Bucket>)
    requires PackState(s0, seen, lists, runs, dropped, current, run, initial)
    requires Fits(current.totalVolume + SumVolume(group.packages), current.totalWeight + SumWeight(group.packages))
    requires PackOrder(s0, lists, runs, dropped, current.stations, run, initial)
    ensures PackState(s0, seen + [group], lists, runs, dropped, current', run', initial)
    ensures PackOrder(s0, lists, runs, dropped, current'.stations, run', initial)
    ensures current'.stations == AddStations(current.stations, group)
    ensures current'.packages == current.packages + group.packages
  {
    var stations := current.stations;
    if !ContainsId(stations, group.fromStation.id) {
      stations := stations + [group.fromStation];
    }
    ghost var s1 := stations;
    if !ContainsId(stations, group.toStation.id) {
      stations := stations + [group.toStation];
    }
    FoldInCovers(current.stations, run, group, s1, stations);
    FoldInDrawn(current.stations, run, group, stations);
    FoldState(s0, seen, lists, runs, dropped, current, run, initial, group, stations);
    assert stations == AddStations(current.stations, group) by {
      ListedIsContainsId(current.stations, group.fromStation.id);
      ListedIsContainsId(s1, group.toStation.id);
    }
    FoldOrder(s0, lists, runs, dropped, current.stations, run, initial, group);
    current' := Load(stations, current.packages + group.packages,
                     current.totalVolume + SumVolume(group.packages), current.totalWeight + SumWeight(group.packages));
    run' := run + [group];
  }

  /** The loop state after a bucket joined the open load whose new list is stations'. */
  lemma FoldState(s0: StationInfo, seen: seq<Bucket>, lists: seq<seq<StationInfo>>, runs: seq<seq<Bucket>>,
                  dropped: seq<Bucket>, current: Load, run: seq<Bucket>, initial: bool, g: Bucket, stations': seq<StationInfo>)
    requires PackState(s0, seen, lists, runs, dropped, current, run, initial)
    requires Fits(current.totalVolume + SumVolume(g.packages), current.totalWeight + SumWeight(g.packages))
    requires |stations'| >= |current.stations| && stations'[..|current.stations|] == current.stations
    requires Covers(stations', run + [g]) && DrawnFrom(stations', run + [g])
    ensures PackState(s0, seen + [g], lists, runs, dropped,
                      Load(stations', current.packages + g.packages,
                           current.totalVolume + SumVolume(g.packages), current.totalWeight + SumWeight(g.packages)),
                      run + [g], initial)
  {
    assert stations'[0] == current.stations[0];
    FoldIn(s0, current, run, g, stations');
    OverflowKept(runs, run, g);
    SeenAppend(seen, dropped + Flatten(runs), run, g);
  }

  /** A bucket appended to a run keeps the run's first bucket. */
  lemma OverflowKept(runs: seq<seq<Bucket>>, run: seq<Bucket>, g: Bucket)
    requires |runs| > 0 ==> Overflows(runs[|runs| - 1], run)
    ensures |runs| > 0 ==> Overflows(runs[|runs| - 1], run + [g])
  {
    if run != [] {
      assert (run + [g])[0] == run[0];
    }
  }

  /** Closing the open run moves it, unchanged, to the end of the emitted runs. */
  lemma RunClosed(seen: seq<Bucket>, dropped: seq<Bucket>, runs: seq<seq<Bucket>>, run: seq<Bucket>)
    requires seen == dropped + Flatten(runs) + run
    ensures seen == dropped + Flatten(runs + [run])
  {
    assert (runs + [run])[..|runs|] == runs;
  }

  lemma SeenAppend(seen: seq<Bucket>, before: seq<Bucket>, run: seq<Bucket>, g: Bucket)
    requires seen == before + run
    ensures seen + [g] == before + (run + [g])
  {
  }

  /** The bucket does not fit: the open load is closed and a new one is seeded with the bucket. */
  method StartLoad(s0: StationInfo, ghost seen: seq<Bucket>, group: Bucket, lists: seq<seq<StationInfo>>, ghost runs: seq<seq<Bucket>>,
                   ghost dropped: seq<Bucket>, current: Load, ghost run: seq<Bucket>, ghost initial: bool)
    returns (lists': seq<seq<StationInfo>>, ghost runs': seq<seq<Bucket>>, ghost dropped': seq<Bucket>,
             current': Load, ghost run': seq<Bucket>)
    requires PackState(s0, seen, lists, runs, dropped, current, run, initial)
    requires PackOrder(s0, lists, runs, dropped, current.stations, run, initial)
    requires !Fits(current.totalVolume + SumVolume(group.packages), current.totalWeight + SumWeight(group.packages))
    ensures PackState(s0, seen + [group], lists', runs', dropped', current', run', false)
    ensures PackOrder(s0, lists', runs', dropped', current'.stations, run', false)
    ensures current' == Load([s0, group.fromStation, group.toStation], group.packages,
                             SumVolume(group.packages), SumWeight(group.packages))
    ensures lists' == if |current.stations| > 1 then lists + [current.stations] else lists
  {
    if |current.stations| > 1 {
      lists', runs', dropped' := lists + [current.stations], runs + [run], dropped;
      EmitAndSeed(s0, seen, group, lists, runs, dropped, current, run, initial);
      CloseOrder(s0, seen, lists, runs, dropped, current, run, initial);
      SeedOrder(s0, lists', runs', dropped', group);
    } else {
      lists', runs', dropped' := lists, runs, run;
      DropAndSeed(s0, seen, group, lists, runs, dropped, current, run, initial);
      DropFacts(s0, seen, lists, runs, dropped, current, run, initial, group);
      DropOrder(s0, lists, runs, run, group);
    }
    current' := Load([s0, group.fromStation, group.toStation], group.packages,
                     SumVolume(group.packages), SumWeight(group.packages));
    run' := [group];
  }

  /** The open load had more than the driver's station: it is emitted, and the bucket seeds the next one. */
  lemma EmitAndSeed(s0: StationInfo, seen: seq<Bucket>, group: Bucket, lists: seq<seq<StationInfo>>, runs: seq<seq<Bucket>>,
                    dropped: seq<Bucket>, current: Load, run: seq<Bucket>, initial: bool)
    requires PackState(s0, seen, lists, runs, dropped, current, run, initial)
    requires !Fits(current.totalVolume + SumVolume(group.packages), current.totalWeight + SumWeight(group.packages))
    requires |current.stations| > 1
    ensures PackState(s0, seen + [group], lists + [current.stations], runs + [run], dropped,
                      Load([s0, group.fromStation, group.toStation], group.packages,
                           SumVolume(group.packages), SumWeight(group.packages)), [group], false)
  {
    EmitLast(s0, seen, lists, runs, dropped, current, run, initial);
    assert (runs + [run])[|runs|] == run;
    assert Overflows(run, [group]) by {
      assert [group][0] == group;
    }
    SeedState(s0, seen, group, lists + [current.stations], runs + [run], dropped);
  }

  /** The open load held only the driver's station: its buckets are dropped, and the bucket seeds the next load. */
  lemma DropAndSeed(s0: StationInfo, seen: seq<Bucket>, group: Bucket, lists: seq<seq<StationInfo>>, runs: seq<seq<Bucket>>,
                    dropped: seq<Bucket>, current: Load, run: seq<Bucket>, initial: bool)
    requires PackState(s0, seen, lists, runs, dropped, current, run, initial)
    requires |current.stations| <= 1
    ensures PackState(s0, seen + [group], lists, runs, run,
                      Load([s0, group.fromStation, group.toStation], group.packages,
                           SumVolume(group.packages), SumWeight(group.packages)), [group], false)
  {
    CloseDrops(s0, current, run);
    SeedState(s0, seen, group, lists, runs, run);
  }

  /** Closing the open load leaves a state in which a load seeded with the bucket is open. */
  lemma SeedState(s0: StationInfo, seen: seq<Bucket>, group: Bucket, lists: seq<seq<StationInfo>>,
                  runs: seq<seq<Bucket>>, dropped: seq<Bucket>)
    requires seen == dropped + Flatten(runs)
    requires SelfBound(s0, dropped) && Fits(RunVolume(dropped), RunWeight(dropped))
    requires |lists| == |runs| && forall j :: 0 <= j < |lists| ==> Emitted(s0, lists[j], runs[j])
    requires NextFit(runs)
    requires |runs| > 0 ==> Overflows(runs[|runs| - 1], [group])
    ensures PackState(s0, seen + [group], lists, runs, dropped,
                      Load([s0, group.fromStation, group.toStation], group.packages,
                           SumVolume(group.packages), SumWeight(group.packages)), [group], false)
  {
    SeedLoad(s0, group);
  }

  lemma EmittedAppend(s0: StationInfo, lists: seq<seq<StationInfo>>, runs: seq<seq<Bucket>>, list: seq<StationInfo>, run: seq<Bucket>)
    requires |lists| == |runs| && forall j :: 0 <= j < |lists| ==> Emitted(s0, lists[j], runs[j])
    requires Emitted(s0, list, run)
    ensures forall j :: 0 <= j < |lists| + 1 ==> Emitted(s0, (lists + [list])[j], (runs + [run])[j])
  {
  }

  /** A fresh load seeded with one bucket. */
  lemma SeedLoad(s0: StationInfo, g: Bucket)
    ensures LoadOf(s0, Load([s0, g.fromStation, g.toStation], g.packages, SumVolume(g.packages), SumWeight(g.packages)), [g])
  {
    var stations := [s0, g.fromStation, g.toStation];
    assert [g][..0] == [];
    assert RunPackages([g]) == g.packages;
    assert ContainsId(stations, g.fromStation.id) by { assert stations[1].id == g.fromStation.id; }
    assert ContainsId(stations, g.toStation.id) by { assert stations[2].id == g.toStation.id; }
    assert [g][..0] == [] && RunStations([g]) == [g.fromStation, g.toStation];
  }

  /** After the loop: the open load is emitted or dropped like any other. */
  method CloseLoad(s0: StationInfo, ghost groups: seq<Bucket>, lists: seq<seq<StationInfo>>, ghost runs: seq<seq<Bucket>>,
                   ghost dropped: seq<Bucket>, current: Load, ghost run: seq<Bucket>, ghost initial: bool)
    returns (lists': seq<seq<StationInfo>>, ghost runs': seq<seq<Bucket>>, ghost dropped': seq<Bucket>)
    requires PackState(s0, groups, lists, runs, dropped, current, run, initial)
    requires PackOrder(s0, lists, runs, dropped, current.stations, run, initial)
    ensures Packed(s0, groups, lists', runs', dropped')
    ensures lists' == if |current.stations| > 1 then lists + [current.stations] else lists
  {
    if |current.stations| > 1 {
      CloseEmitted(s0, groups, lists, runs, dropped, current, run, initial);
      lists', runs', dropped' := lists + [current.stations], runs + [run], dropped;
    } else {
      CloseDropped(s0, groups, lists, runs, dropped, current, run, initial);
      lists', runs', dropped' := lists, runs, run;
    }
  }

  /**
   * What packing delivers: the buckets, in order, are the dropped opening
   * buckets followed by the runs; each list is emitted from its run and is
   * that run's station list; consecutive runs are cut where the next bucket
   * did not fit.
   */
  ghost predicate Packed(s0: StationInfo, groups: seq<Bucket>, lists: seq<seq<StationInfo>>,
                         runs: seq<seq<Bucket>>, dropped: seq<Bucket>)
  {
    |lists| == |runs|
    && (forall i :: 0 <= i < |lists| ==> Emitted(s0, lists[i], runs[i]))
    && NextFit(runs)
    && groups == dropped + Flatten(runs)
    && SelfBound(s0, dropped) && Fits(RunVolume(dropped), RunWeight(dropped))
    && ListsFollowRuns(s0, lists, runs, dropped)
    && (dropped != [] && |runs| > 0 ==> Overflows(dropped, runs[0]))
  }

  /** The open load lists more than the driver's station and is emitted. */
  lemma CloseEmitted(s0: StationInfo, groups: seq<Bucket>, lists: seq<seq<StationInfo>>, runs: seq<seq<Bucket>>,
                     dropped: seq<Bucket>, current: Load, run: seq<Bucket>, initial: bool)
    requires PackState(s0, groups, lists, runs, dropped, current, run, initial)
    requires PackOrder(s0, lists, runs, dropped, current.stations, run, initial)
    requires |current.stations| > 1
    ensures Packed(s0, groups, lists + [current.stations], runs + [run], dropped)
  {
    EmitLast(s0, groups, lists, runs, dropped, current, run, initial);
    CloseOrder(s0, groups, lists, runs, dropped, current, run, initial);
  }

  lemma EmitLast(s0: StationInfo, groups: seq<Bucket>, lists: seq<seq<StationInfo>>, runs: seq<seq<Bucket>>,
                 dropped: seq<Bucket>, current: Load, run: seq<Bucket>, initial: bool)
    requires PackState(s0, groups, lists, runs, dropped, current, run, initial)
    requires |current.stations| > 1
    ensures |lists + [current.stations]| == |runs + [run]|
    ensures forall i :: 0 <= i < |lists + [current.stations]| ==>
              Emitted(s0, (lists + [current.stations])[i], (runs + [run])[i])
    ensures NextFit(runs + [run])
    ensures groups == dropped + Flatten(runs + [run])
  {
    CloseEmits(s0, current, run, runs);
    EmittedAppend(s0, lists, runs, current.stations, run);
    RunClosed(groups, dropped, runs, run);
  }

  /** An open load that lists only the driver's station is the opening one, and its buckets are all dropped. */
  lemma CloseDropped(s0: StationInfo, groups: seq<Bucket>, lists: seq<seq<StationInfo>>, runs: seq<seq<Bucket>>,
                     dropped: seq<Bucket>, current: Load, run: seq<Bucket>, initial: bool)
    requires PackState(s0, groups, lists, runs, dropped, current, run, initial)
    requires |current.stations| <= 1
    ensures Packed(s0, groups, lists, runs, run)
  {
    CloseDrops(s0, current, run);
    assert Flatten(runs) == [];
  }

  /** The bucket lies in one of the runs. */
  ghost predicate InSomeRun(runs: seq<seq<Bucket>>, b: Bucket)
  {
    exists i :: 0 <= i < |runs| && b in runs[i]
  }

  /** Flattening neither loses nor invents buckets. */
  lemma {:induction false} FlattenMembers(runs: seq<seq<Bucket>>)
    ensures forall b :: b in Flatten(runs) <==> InSomeRun(runs, b)
    decreases |runs|
  {
    if runs != [] {
      var n := |runs| - 1;
      FlattenMembers(runs[..n]);
      forall b ensures b in Flatten(runs) <==> InSomeRun(runs, b) {
        if b in Flatten(runs[..n]) {
          var i :| 0 <= i < n && b in runs[..n][i];
          assert b in runs[i];
        }
        if InSomeRun(runs, b) && b !in runs[n] {
          var i :| 0 <= i < |runs| && b in runs[i];
          assert runs[..n][i] == runs[i];
          assert InSomeRun(runs[..n], b);
        }
      }
    }
  }

  /** Some emitted list holds both stations of the package (by id). */
  predicate Served(lists: seq<seq<StationInfo>>, p: Package)
  {
    exists i :: 0 <= i < |lists| && ContainsId(lists[i], p.from.id) && ContainsId(lists[i], p.to.id)
  }

  /**
   * groupStationsByCapacity: the station lists of the loads packed from the
   * sorted buckets, each starting with the driver's station stations[0].
   * Every load stays within both vehicle limits unless it is a single bucket
   * too large on its own, every station of a list after the first comes from
   * its load's buckets, and every package except one going from the driver's
   * station to itself is served by some list holding both its stations.
   */
  method GroupStationsByCapacity(stations: seq<StationInfo>, packages: seq<Package>)
    returns (lists: seq<seq<StationInfo>>, ghost runs: seq<seq<Bucket>>,
             ghost groups: seq<Bucket>, ghost dropped: seq<Bucket>)
    requires |stations| >= 1
    // the buckets, largest first, ties in order of first appearance
    ensures forall j :: 0 <= j < |groups| ==> IsBucketOf(packages, groups[j])
    ensures forall k :: 0 <= k < |packages| ==> HasBucket(groups, Key(packages[k]))
    ensures forall i, j :: 0 <= i < j < |groups| ==> Count(groups[i]) >= Count(groups[j])
    ensures forall i, j :: 0 <= i < j < |groups| && Count(groups[i]) == Count(groups[j]) ==>
              FirstIndex(packages, BucketKey(groups[i])) < FirstIndex(packages, BucketKey(groups[j]))
    // cut, in order, into the dropped opening buckets and the emitted runs
    ensures groups == dropped + Flatten(runs)
    ensures SelfBound(stations[0], dropped) && Fits(RunVolume(dropped), RunWeight(dropped))
    ensures dropped != [] && |runs| > 0 ==> Overflows(dropped, runs[0])
    ensures ListsFollowRuns(stations[0], lists, runs, dropped)
    ensures |lists| == |runs|
    ensures forall i :: 0 <= i < |lists| ==> Emitted(stations[0], lists[i], runs[i])
    ensures forall i, b :: 0 <= i < |runs| && b in runs[i] ==> IsBucketOf(packages, b)
    ensures NextFit(runs)
    ensures forall k :: 0 <= k < |packages| && !(packages[k].from.id == stations[0].id && packages[k].to.id == stations[0].id)
              ==> Served(lists, packages[k])
  {
    var buckets := GroupPackagesByStations(packages);
    groups := buckets;
    lists, runs, dropped := PackGroups(stations[0], buckets);
    FlattenMembers(runs);
    forall i, b | 0 <= i < |runs| && b in runs[i] ensures IsBucketOf(packages, b) {
      assert InSomeRun(runs, b);
      assert b in groups;
    }
    forall k | 0 <= k < |packages| && !(packages[k].from.id == stations[0].id && packages[k].to.id == stations[0].id)
      ensures Served(lists, packages[k])
    {
      PackageServed(stations[0], packages[k], groups, lists, runs, dropped);
    }
  }

  lemma PackageServed(s0: StationInfo, p: Package, groups: seq<Bucket>, lists: seq<seq<StationInfo>>,
                      runs: seq<seq<Bucket>>, dropped: seq<Bucket>)
    requires HasBucket(groups, Key(p)) && !(p.from.id == s0.id && p.to.id == s0.id)
    requires groups == dropped + Flatten(runs) && SelfBound(s0, dropped)
    requires |lists| == |runs| && forall i :: 0 <= i < |lists| ==> Emitted(s0, lists[i], runs[i])
    requires forall b :: b in Flatten(runs) <==> InSomeRun(runs, b)
    ensures Served(lists, p)
  {
    var j :| 0 <= j < |groups| && BucketKey(groups[j]) == Key(p);
    var g := groups[j];
    assert g !in dropped;
    assert g in Flatten(runs);
    var i :| 0 <= i < |runs| && g in runs[i];
    assert Covers(lists[i], runs[i]);
  }
}
