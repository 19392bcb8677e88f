/**
 * The freight tariff of the platform: volume and volumetric weight, the
 * chargeable weight, a base fare stepped per 50 km, a surcharge per kilogram
 * above the first, the driver's 83.33 % share truncated to whole cents, the
 * batch tariff over several parcels and the weight-only estimate.
 * Lengths are centimetres, weights kilograms, distances metres, money yuan.
 */
module Freight {
  import opened JsBuiltins

  /** Volumetric divisor: cm^3 per kilogram. */
  const VolumeWeightRatio: real := 6000.0
  /** Fare per started distance step. */
  const BaseFare: real := 6.0
  /** One distance step, in metres (50 km). */
  const BaseDistance: real := 50000.0
  /** The driver's share of a freight total. */
  const DriverShareRatio: real := 0.8333

  /** A parcel as the batch tariff reads it. */
  datatype Parcel = Parcel(length: real, width: real, height: real, weight: real)

  /** What the tariff reports for one shipment. */
  datatype Quote = Quote(
    volume: real,
    volumeWeight: real,
    chargeableWeight: real,
    baseFreight: real,
    weightSurcharge: real,
    totalFreight: real)

  /** A batch quote: the shipment quote plus the driver's earnings. */
  datatype BatchQuote = BatchQuote(quote: Quote, driverEarnings: real)

  /** The weight-only estimate. */
  datatype Estimate = Estimate(
    baseFreight: real,
    weightSurcharge: real,
    totalFreight: real,
    driverEarnings: real)

  /** calculateVolume: length x width x height. */
  function Volume(length: real, width: real, height: real): real
  {
    length * width * height
  }

  /** calculateVolumeWeight: the weight a parcel is billed at for its bulk. */
  function VolumeWeight(volume: real): (w: real)
    ensures w * VolumeWeightRatio == volume
  {
    volume / VolumeWeightRatio
  }

  /** calculateChargeableWeight: the larger of actual and volumetric weight. */
  function ChargeableWeight(actualWeight: real, volumeWeight: real): (w: real)
    ensures w >= actualWeight && w >= volumeWeight
    ensures w == actualWeight || w == volumeWeight
  {
    if actualWeight >= volumeWeight then actualWeight else volumeWeight
  }

  /** calculateBaseFreight: 6 yuan per started 50 km step. */
  function BaseFreight(distance: real): (f: real)
    ensures Floor(f / BaseFare) as real * BaseFare == f
    ensures distance / BaseDistance * BaseFare <= f < distance / BaseDistance * BaseFare + BaseFare
  {
    Ceil(distance / BaseDistance) as real * BaseFare
  }

  lemma BaseFreightAtZero()
    ensures BaseFreight(0.0) == 0.0
  {
  }

  /** Any distance up to the first 50 km costs exactly one step. */
  lemma BaseFreightFirstStep(distance: real)
    requires 0.0 < distance <= BaseDistance
    ensures BaseFreight(distance) == BaseFare
  {
    var q := distance / BaseDistance;
    assert 0.0 < q <= 1.0;
    assert Ceil(q) == 1;
  }

  /** The base fare never drops as the distance grows. */
  lemma BaseFreightMonotone(d1: real, d2: real)
    requires d1 <= d2
    ensures BaseFreight(d1) <= BaseFreight(d2)
  {
    CeilMonotone(d1 / BaseDistance, d2 / BaseDistance);
  }

  /** Adding one full step adds exactly one fare. */
  lemma BaseFreightStep(distance: real)
    ensures BaseFreight(distance + BaseDistance) == BaseFreight(distance) + BaseFare
  {
    var q := distance / BaseDistance;
    assert (distance + BaseDistance) / BaseDistance == q + 1.0;
    assert Ceil(q + 1.0) == Ceil(q) + 1;
  }

  /** calculateWeightSurcharge: 0.1 yuan per kilogram above the first, never negative. */
  function WeightSurcharge(chargeableWeight: real): (s: real)
    ensures s >= 0.0 && s >= (chargeableWeight - 1.0) * 0.1
    ensures chargeableWeight <= 1.0 ==> s == 0.0
    ensures chargeableWeight > 1.0 ==> s == (chargeableWeight - 1.0) * 0.1
  {
    var raw := (chargeableWeight - 1.0) * 0.1;
    if 0.0 >= raw then 0.0 else raw
  }

  lemma WeightSurchargeMonotone(w1: real, w2: real)
    requires w1 <= w2
    ensures WeightSurcharge(w1) <= WeightSurcharge(w2)
  {
  }

  /**
   * The part of calculateTotalFreight that follows the volume: volumetric
   * weight, chargeable weight, base fare, surcharge and their sum.
   */
  function QuoteForVolume(volume: real, weight: real, distance: real): (q: Quote)
    ensures q.volume == volume
    ensures q.volumeWeight * VolumeWeightRatio == volume
    ensures q.chargeableWeight >= weight && q.chargeableWeight >= q.volumeWeight
    ensures q.chargeableWeight == weight || q.chargeableWeight == q.volumeWeight
    ensures q.baseFreight == BaseFreight(distance)
    ensures q.weightSurcharge == WeightSurcharge(q.chargeableWeight)
    ensures q.totalFreight == q.baseFreight + q.weightSurcharge
    ensures q.totalFreight >= q.baseFreight
  {
    var volumeWeight := VolumeWeight(volume);
    var chargeable := ChargeableWeight(weight, volumeWeight);
    var base := BaseFreight(distance);
    var surcharge := WeightSurcharge(chargeable);
    Quote(volume, volumeWeight, chargeable, base, surcharge, base + surcharge)
  }

  /** calculateTotalFreight for one parcel of the given size, weight and distance. */
  function TotalFreight(length: real, width: real, height: real, weight: real, distance: real): (q: Quote)
    ensures q.volume == Volume(length, width, height)
    ensures q.volumeWeight * VolumeWeightRatio == q.volume
    ensures q.chargeableWeight >= weight && q.chargeableWeight >= q.volumeWeight
    ensures q.chargeableWeight == ChargeableWeight(weight, q.volumeWeight)
    ensures q.baseFreight == BaseFreight(distance)
    ensures q.weightSurcharge == WeightSurcharge(q.chargeableWeight)
    ensures q.totalFreight == q.baseFreight + q.weightSurcharge
  {
    QuoteForVolume(Volume(length, width, height), weight, distance)
  }

  /** A light, small parcel pays only the base fare. */
  lemma LightParcelPaysBaseOnly(length: real, width: real, height: real, weight: real, distance: real)
    requires weight <= 1.0 && Volume(length, width, height) <= VolumeWeightRatio
    ensures TotalFreight(length, width, height, weight, distance).totalFreight == BaseFreight(distance)
  {
  }

  /** calculateDriverEarnings: the driver's share, truncated to whole cents. */
  function DriverEarnings(totalFreight: real): (e: real)
    ensures (e * 100.0).Floor as real == e * 100.0
    ensures e <= totalFreight * DriverShareRatio
    ensures e > totalFreight * DriverShareRatio - 0.01
  {
    Floor(totalFreight * DriverShareRatio * 100.0) as real / 100.0
  }

  /** Earnings never drop when the freight total grows. */
  lemma DriverEarningsMonotone(t1: real, t2: real)
    requires t1 <= t2
    ensures DriverEarnings(t1) <= DriverEarnings(t2)
  {
    FloorMonotone(t1 * DriverShareRatio * 100.0, t2 * DriverShareRatio * 100.0);
  }

  /** The batch `reduce` over parcel volumes (a left fold from 0). */
  function TotalVolume(parcels: seq<Parcel>): real
  {
    if parcels == [] then 0.0
    else
      var last := parcels[|parcels| - 1];
      TotalVolume(parcels[..|parcels| - 1]) + Volume(last.length, last.width, last.height)
  }

  /** The batch `reduce` over parcel weights. */
  function TotalWeight(parcels: seq<Parcel>): real
  {
    if parcels == [] then 0.0
    else TotalWeight(parcels[..|parcels| - 1]) + parcels[|parcels| - 1].weight
  }

  /** Both folds split over a concatenation of batches. */
  lemma {:induction false} TotalsSplit(a: seq<Parcel>, b: seq<Parcel>)
    ensures TotalVolume(a + b) == TotalVolume(a) + TotalVolume(b)
    ensures TotalWeight(a + b) == TotalWeight(a) + TotalWeight(b)
    decreases |b|
  {
    if b == [] {
      assert a + b == a;
    } else {
      var b' := b[..|b| - 1];
      assert (a + b)[..|a + b| - 1] == a + b';
      TotalsSplit(a, b');
    }
  }

  /**
   * calculateBatchFreight: the batch is priced as one cube of the summed
   * volume carrying the summed weight; the cube's side is cbrt(total
   * volume), whose cube is taken to give that volume back.
   */
  function BatchFreight(parcels: seq<Parcel>, distance: real): (b: BatchQuote)
    ensures b.quote.volume == TotalVolume(parcels)
    ensures b.quote.chargeableWeight >= TotalWeight(parcels)
    ensures b.quote.chargeableWeight * VolumeWeightRatio >= TotalVolume(parcels)
    ensures b.quote.volumeWeight * VolumeWeightRatio == TotalVolume(parcels)
    ensures b.quote.chargeableWeight == ChargeableWeight(TotalWeight(parcels), b.quote.volumeWeight)
    ensures b.quote.baseFreight == BaseFreight(distance)
    ensures b.quote.weightSurcharge == WeightSurcharge(b.quote.chargeableWeight)
    ensures b.quote.totalFreight == b.quote.baseFreight + b.quote.weightSurcharge
    ensures b.driverEarnings == DriverEarnings(b.quote.totalFreight)
  {
    var quote := QuoteForVolume(TotalVolume(parcels), TotalWeight(parcels), distance);
    BatchQuote(quote, DriverEarnings(quote.totalFreight))
  }

  /** A batch of one parcel is priced exactly like that parcel alone. */
  lemma BatchOfOne(p: Parcel, distance: real)
    ensures BatchFreight([p], distance).quote == TotalFreight(p.length, p.width, p.height, p.weight, distance)
  {
    assert [p][..0] == [];
    assert TotalVolume([p]) == Volume(p.length, p.width, p.height);
    assert TotalWeight([p]) == p.weight;
  }

  /** estimateFreight: the surcharge on the raw weight, no volumetric adjustment. */
  function EstimateFreight(distance: real, weight: real): (e: Estimate)
    ensures e.baseFreight == BaseFreight(distance)
    ensures e.weightSurcharge == WeightSurcharge(weight)
    ensures e.totalFreight == e.baseFreight + e.weightSurcharge
    ensures e.driverEarnings == DriverEarnings(e.totalFreight)
  {
    var base := BaseFreight(distance);
    var surcharge := WeightSurcharge(weight);
    Estimate(base, surcharge, base + surcharge, DriverEarnings(base + surcharge))
  }

  /**
   * The estimate never exceeds the full tariff, and equals it when the
   * parcel's volumetric weight does not exceed its actual weight.
   */
  lemma EstimateAgainstFullTariff(length: real, width: real, height: real, weight: real, distance: real)
    ensures EstimateFreight(distance, weight).totalFreight
            <= TotalFreight(length, width, height, weight, distance).totalFreight
    ensures VolumeWeight(Volume(length, width, height)) <= weight ==>
            EstimateFreight(distance, weight).totalFreight
            == TotalFreight(length, width, height, weight, distance).totalFreight
  {
    var q := TotalFreight(length, width, height, weight, distance);
    WeightSurchargeMonotone(weight, q.chargeableWeight);
  }
}
