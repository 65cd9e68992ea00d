/**
 * `Soils/InitialWater.cs`: the initial soil water of a profile, either a
 * fraction of the plant-available water (filled from the top or spread
 * evenly) or a depth of wet soil, relative to LL15 or to a crop's LL.
 */
module InitialWaterModel {
  import opened Wrappers
  import opened Text
  import opened SoilData
  import opened SoilLayers
  import opened SoilUtilities

  /** The two ways a fraction of the plant-available water is laid out. */
  datatype PercentMethod = FilledFromTop | EvenlyDistributed

  /** The initial water settings: the fraction full (0-1), the wet-soil depth (mm, NaN when unset) and the reference crop. */
  datatype InitialWater = InitialWater(percentMethod: PercentMethod, fractionFull: real, depthWetSoil: Double, relativeTo: Option<string>)

  /** `f · w` lies between 0 and `w` for a fraction `f` and a non-negative `w`. */
  lemma FractionOf(f: real, w: real)
    requires 0.0 <= f <= 1.0 && 0.0 <= w
    ensures 0.0 <= f * w <= w
  {
    assert w - f * w == (1.0 - f) * w;
  }

  // ----- SWEvenlyDistributed -----

  /** Every layer filled to the same fraction of its range from LL to DUL. */
  function EvenlyDistributedProfile(fractionFull: real, ll: seq<real>, dul: seq<real>): (sw: seq<real>)
    requires |dul| >= |ll|
    ensures |sw| == |ll|
    ensures forall i :: 0 <= i < |ll| ==> sw[i] - ll[i] == fractionFull * (dul[i] - ll[i])
  {
    seq(|ll|, i requires 0 <= i < |ll| => fractionFull * (dul[i] - ll[i]) + ll[i])
  }

  /** A layer filled to a fraction `f` of its range from `ll` to `dul` lies within that range. */
  lemma FractionOfRange(f: real, ll: real, dul: real, sw: real)
    requires 0.0 <= f <= 1.0 && ll <= dul
    requires sw - ll == f * (dul - ll)
    ensures ll <= sw <= dul
  {
    FractionOf(f, dul - ll);
    FractionOf(1.0 - f, dul - ll);
    assert dul - sw == (1.0 - f) * (dul - ll);
  }

  /** With a fraction between 0 and 1, every evenly filled layer lies between its LL and DUL. */
  lemma EvenlyDistributedWithinLimits(fractionFull: real, ll: seq<real>, dul: seq<real>)
    requires |dul| >= |ll| && 0.0 <= fractionFull <= 1.0
    ensures forall i :: 0 <= i < |ll| && ll[i] <= dul[i] ==>
      ll[i] <= EvenlyDistributedProfile(fractionFull, ll, dul)[i] <= dul[i]
  {
    var sw := EvenlyDistributedProfile(fractionFull, ll, dul);
    forall i | 0 <= i < |ll| && ll[i] <= dul[i]
      ensures ll[i] <= sw[i] <= dul[i]
    {
      FractionOfRange(fractionFull, ll[i], dul[i], sw[i]);
    }
  }

  /** `SWEvenlyDistributed`: fills a fresh array layer by layer. */
  method SWEvenlyDistributed(fractionFull: real, ll: seq<real>, dul: seq<real>) returns (sw: seq<real>)
    requires |dul| >= |ll|
    ensures sw == EvenlyDistributedProfile(fractionFull, ll, dul)
  {
    var a := new real[|ll|];
    var layer := 0;
    while layer < |ll|
      invariant 0 <= layer <= |ll|
      invariant forall i :: 0 <= i < layer ==> a[i] == EvenlyDistributedProfile(fractionFull, ll, dul)[i]
    {
      a[layer] := fractionFull * (dul[layer] - ll[layer]) + ll[layer];
      layer := layer + 1;
    }
    sw := a[..];
  }

  // ----- SWDepthWetSoil -----

  /** The wet part of a layer of thickness `t` whose top is at `top`, for a wet front at `depth` not below its bottom. */
  function WetFraction(depth: real, top: real, t: real): (p: real)
    requires t > 0.0 && depth <= top + t
    ensures 0.0 <= p <= 1.0
    ensures depth <= top ==> p == 0.0
  {
    Max(depth - top, 0.0) / t
  }

  /** The water of one layer for a wet front at `depth`. */
  function WetLayer(depth: real, top: real, t: real, ll: real, dul: real): (sw: real)
    requires t > 0.0
    ensures depth > top + t ==> sw == dul
    ensures depth <= top ==> sw == ll
  {
    if depth > top + t then dul
    else WetFraction(depth, top, t) * (dul - ll) + ll
  }

  /** A layer's water for any wet front lies between its LL and DUL. */
  lemma WetLayerWithinLimits(depth: real, top: real, t: real, ll: real, dul: real)
    requires t > 0.0 && ll <= dul
    ensures ll <= WetLayer(depth, top, t, ll, dul) <= dul
  {
    if depth <= top + t {
      FractionOfRange(WetFraction(depth, top, t), ll, dul, WetLayer(depth, top, t, ll, dul));
    }
  }

  /** The body of the `SWDepthWetSoil` loop: the water of one layer whose top is at `depthSoFar`. */
  method LayerWater(depthWetSoil: real, depthSoFar: real, thickness: real, ll: real, dul: real) returns (sw: real)
    requires thickness > 0.0
    ensures sw == WetLayer(depthWetSoil, depthSoFar, thickness, ll, dul)
  {
    if depthWetSoil > depthSoFar + thickness {
      sw := dul;
    } else {
      var prop := Max(depthWetSoil - depthSoFar, 0.0) / thickness;
      sw := prop * (dul - ll) + ll;
    }
  }

  /** The profile for a wet front at `depth`: DUL above it, LL below it, a proportion in the layer it reaches. */
  function WetDepthProfile(depth: real, thickness: seq<real>, ll: seq<real>, dul: seq<real>): (sw: seq<real>)
    requires |ll| >= |thickness| && |dul| >= |thickness|
    requires forall i :: 0 <= i < |thickness| ==> thickness[i] > 0.0
    ensures |sw| == |ll|
    ensures forall i :: 0 <= i < |thickness| ==> sw[i] == WetLayer(depth, Sum(thickness[..i]), thickness[i], ll[i], dul[i])
    ensures forall i :: |thickness| <= i < |ll| ==> sw[i] == 0.0
  {
    seq(|ll|, i requires 0 <= i < |ll| =>
      if i < |thickness| then WetLayer(depth, Sum(thickness[..i]), thickness[i], ll[i], dul[i]) else 0.0)
  }

  /** Layers wholly above the wet front are at DUL, wholly below it at LL, and every layer stays within [LL, DUL]. */
  lemma WetDepthLayers(depth: real, thickness: seq<real>, ll: seq<real>, dul: seq<real>)
    requires |ll| >= |thickness| && |dul| >= |thickness|
    requires forall i :: 0 <= i < |thickness| ==> thickness[i] > 0.0
    ensures forall i :: 0 <= i < |thickness| && depth > CumThickness(thickness)[i] ==>
      WetDepthProfile(depth, thickness, ll, dul)[i] == dul[i]
    ensures forall i :: 0 <= i < |thickness| && depth <= CumThickness(thickness)[i] - thickness[i] ==>
      WetDepthProfile(depth, thickness, ll, dul)[i] == ll[i]
    ensures forall i :: 0 <= i < |thickness| && ll[i] <= dul[i] ==>
      ll[i] <= WetDepthProfile(depth, thickness, ll, dul)[i] <= dul[i]
  {
    forall i | 0 <= i < |thickness|
      ensures CumThickness(thickness)[i] == Sum(thickness[..i]) + thickness[i]
      ensures ll[i] <= dul[i] ==> ll[i] <= WetDepthProfile(depth, thickness, ll, dul)[i] <= dul[i]
    {
      SumPrefixStep(thickness, i);
      if ll[i] <= dul[i] {
        WetLayerWithinLimits(depth, Sum(thickness[..i]), thickness[i], ll[i], dul[i]);
      }
    }
  }

  /** `SWDepthWetSoil`: walks down the layers keeping the depth of the current layer's top. */
  method SWDepthWetSoil(depthWetSoil: real, thickness: seq<real>, ll: seq<real>, dul: seq<real>) returns (sw: seq<real>)
    requires |ll| >= |thickness| && |dul| >= |thickness|
    requires forall i :: 0 <= i < |thickness| ==> thickness[i] > 0.0
    ensures sw == WetDepthProfile(depthWetSoil, thickness, ll, dul)
  {
    var a := new real[|ll|](i => 0.0);
    ghost var profile := WetDepthProfile(depthWetSoil, thickness, ll, dul);
    var depthSoFar := 0.0;
    var layer := 0;
    while layer < |thickness|
      invariant 0 <= layer <= |thickness|
      invariant depthSoFar == Sum(thickness[..layer])
      invariant a[..layer] == profile[..layer]
      invariant a[|thickness|..] == profile[|thickness|..]
    {
      assert profile[layer] == WetLayer(depthWetSoil, depthSoFar, thickness[layer], ll[layer], dul[layer]);
      var value := LayerWater(depthWetSoil, depthSoFar, thickness[layer], ll[layer], dul[layer]);
      a[layer] := value;
      assert a[..layer + 1] == profile[..layer + 1];
      SumPrefixStep(thickness, layer);
      depthSoFar := depthSoFar + thickness[layer];
      layer := layer + 1;
    }
    assert a[..] == a[..layer] + a[layer..];
    assert profile == profile[..layer] + profile[layer..];
    sw := a[..];
  }

  // ----- SWFilledFromTop -----

  /**
   * One layer of the top-down fill, from the water still to place: a layer
   * held at LL, a layer filled to DUL, or the one partly filled layer that
   * takes the rest. Gives the layer's SW and the water left.
   */
  function FillLayer(amount: real, pawcmm: real, ll: real, dul: real, heldAtLL: bool): (real, real)
    requires amount >= 0.0
  {
    if amount >= 0.0 && heldAtLL then (ll, amount)
    else if amount >= pawcmm then (dul, amount - pawcmm)
    else (amount / pawcmm * (dul - ll) + ll, 0.0)
  }

  /** The top-down fill of the layers with `amount` mm of water, given each layer's capacity in mm. */
  function Fill(amount: real, pawcmm: seq<real>, ll: seq<real>, dul: seq<real>, heldAtLL: seq<bool>): (sw: seq<real>)
    requires amount >= 0.0
    requires |pawcmm| == |ll| == |dul| == |heldAtLL|
    ensures |sw| == |ll|
    decreases |ll|
  {
    if ll == [] then []
    else
      var step := FillLayer(amount, pawcmm[0], ll[0], dul[0], heldAtLL[0]);
      assert step.1 >= 0.0;
      [step.0] + Fill(step.1, pawcmm[1..], ll[1..], dul[1..], heldAtLL[1..])
  }

  /** The water a layer of thickness `t` at `sw` holds above `ll` (mm). */
  function WaterAboveLL(sw: real, ll: real, t: real): real
  {
    (sw - ll) * t
  }

  /** The water a profile holds above LL (mm): the sum of (SW − LL) · thickness. */
  function AddedWater(sw: seq<real>, ll: seq<real>, thickness: seq<real>): real
    requires |ll| == |sw| && |thickness| == |sw|
  {
    if sw == [] then 0.0
    else WaterAboveLL(sw[0], ll[0], thickness[0]) + AddedWater(sw[1..], ll[1..], thickness[1..])
  }

  /** A partly filled layer holds exactly the water that was left for it. */
  lemma PartialLayerHoldsRest(amount: real, ll: real, dul: real, t: real)
    requires (dul - ll) * t != 0.0
    ensures (amount / ((dul - ll) * t) * (dul - ll) + ll - ll) * t == amount
  {
    var p := (dul - ll) * t;
    assert (amount / p * (dul - ll) + ll - ll) * t == amount / p * ((dul - ll) * t);
    assert amount / p * p == amount;
  }

  /**
   * One layer of the fill keeps the water: what the layer takes above LL plus
   * what is left equals what there was, and what is left is either nothing or
   * the amount less the layer's capacity.
   */
  lemma FillLayerKeepsWater(amount: real, pawcmm: real, ll: real, dul: real, t: real, heldAtLL: bool)
    requires amount >= 0.0 && pawcmm >= 0.0
    requires heldAtLL ==> pawcmm == 0.0
    requires !heldAtLL ==> pawcmm == (dul - ll) * t
    ensures var step := FillLayer(amount, pawcmm, ll, dul, heldAtLL);
      WaterAboveLL(step.0, ll, t) + step.1 == amount && (step.1 == 0.0 || step.1 == amount - pawcmm)
  {
    if !heldAtLL && amount < pawcmm {
      PartialLayerHoldsRest(amount, ll, dul, t);
    }
  }

  /** The water of a profile is its top layer's plus the rest's. */
  lemma AddedWaterSplit(sw: seq<real>, ll: seq<real>, thickness: seq<real>, top: real, rest: seq<real>, left: real, amount: real)
    requires sw == [top] + rest && |ll| == |sw| && |thickness| == |sw|
    requires WaterAboveLL(top, ll[0], thickness[0]) + left == amount
    requires AddedWater(rest, ll[1..], thickness[1..]) == left
    ensures AddedWater(sw, ll, thickness) == amount
  {
    assert sw[0] == top && sw[1..] == rest;
  }

  /**
   * Conservation of the top-down fill: when every held layer has no capacity,
   * every other layer's capacity is (DUL − LL) · thickness, and the amount does
   * not exceed the total capacity, the profile ends up holding exactly the
   * amount above LL.
   */
  lemma {:induction false} FillConserves(amount: real, pawcmm: seq<real>, ll: seq<real>, dul: seq<real>,
                                         thickness: seq<real>, heldAtLL: seq<bool>)
    requires |pawcmm| == |ll| == |dul| == |heldAtLL| == |thickness|
    requires 0.0 <= amount <= Sum(pawcmm)
    requires forall i :: 0 <= i < |ll| ==> pawcmm[i] >= 0.0
    requires forall i :: 0 <= i < |ll| && heldAtLL[i] ==> pawcmm[i] == 0.0
    requires forall i :: 0 <= i < |ll| && !heldAtLL[i] ==> pawcmm[i] == (dul[i] - ll[i]) * thickness[i]
    ensures AddedWater(Fill(amount, pawcmm, ll, dul, heldAtLL), ll, thickness) == amount
    decreases |ll|
  {
    if ll == [] {
      assert Sum(pawcmm) == 0.0;
    } else {
      var step := FillLayer(amount, pawcmm[0], ll[0], dul[0], heldAtLL[0]);
      FillLayerKeepsWater(amount, pawcmm[0], ll[0], dul[0], thickness[0], heldAtLL[0]);
      SumHead(pawcmm);
      SumNonNegative(pawcmm[1..]);
      assert step.1 <= Sum(pawcmm[1..]);
      FillConserves(step.1, pawcmm[1..], ll[1..], dul[1..], thickness[1..], heldAtLL[1..]);
      var sw := Fill(amount, pawcmm, ll, dul, heldAtLL);
      var rest := Fill(step.1, pawcmm[1..], ll[1..], dul[1..], heldAtLL[1..]);
      AddedWaterSplit(sw, ll, thickness, step.0, rest, step.1, amount);
    }
  }

  /** The loop of `SWFilledFromTop`, with the layers held at LL given: places `amount` mm from the top down. */
  method FillFromTop(amount: real, pawcmm: seq<real>, ll: seq<real>, dul: seq<real>, heldAtLL: seq<bool>)
    returns (sw: seq<real>)
    requires amount >= 0.0
    requires |pawcmm| == |ll| == |dul| == |heldAtLL|
    ensures sw == Fill(amount, pawcmm, ll, dul, heldAtLL)
  {
    var a := new real[|ll|];
    var amountWater := amount;
    var layer := 0;
    while layer < |ll|
      invariant 0 <= layer <= |ll|
      invariant amountWater >= 0.0
      invariant a[..layer] + Fill(amountWater, pawcmm[layer..], ll[layer..], dul[layer..], heldAtLL[layer..])
        == Fill(amount, pawcmm, ll, dul, heldAtLL)
    {
      FillStep(amountWater, pawcmm, ll, dul, heldAtLL, layer);
      ghost var done := a[..layer];
      ghost var rest := Fill(amountWater, pawcmm[layer..], ll[layer..], dul[layer..], heldAtLL[layer..]);
      var sw, left := FillOneLayer(amountWater, pawcmm[layer], ll[layer], dul[layer], heldAtLL[layer]);
      a[layer] := sw;
      amountWater := left;
      assert a[..layer + 1] == done + [sw];
      MoveHead(done, rest, Fill(amountWater, pawcmm[layer + 1..], ll[layer + 1..], dul[layer + 1..], heldAtLL[layer + 1..]));
      layer := layer + 1;
    }
    assert a[..] == a[..layer];
    sw := a[..];
  }

  /** Moving the head of the second part to the end of the first keeps the whole. */
  lemma MoveHead(done: seq<real>, rest: seq<real>, tail: seq<real>)
    requires |rest| > 0 && rest == [rest[0]] + tail
    ensures (done + [rest[0]]) + tail == done + rest
  {
  }

  /** The body of the loop of `FillFromTop`: one layer's SW and the water left for the layers below. */
  method FillOneLayer(amountWater: real, pawcmm: real, ll: real, dul: real, heldAtLL: bool) returns (sw: real, left: real)
    requires amountWater >= 0.0
    ensures (sw, left) == FillLayer(amountWater, pawcmm, ll, dul, heldAtLL)
  {
    left := amountWater;
    if amountWater >= 0.0 && heldAtLL {
      sw := ll;
    } else if amountWater >= pawcmm {
      sw := dul;
      left := amountWater - pawcmm;
    } else {
      sw := amountWater / pawcmm * (dul - ll) + ll;
      left := 0.0;
      assert FillLayer(amountWater, pawcmm, ll, dul, heldAtLL).1 == left;
      assert FillLayer(amountWater, pawcmm, ll, dul, heldAtLL).0 == sw;
    }
  }

  /** The fill of the layers from `layer` down: that layer's share, then the fill of the layers below with what is left. */
  lemma FillStep(amount: real, pawcmm: seq<real>, ll: seq<real>, dul: seq<real>, heldAtLL: seq<bool>, layer: nat)
    requires amount >= 0.0
    requires |pawcmm| == |ll| == |dul| == |heldAtLL| && layer < |ll|
    ensures var step := FillLayer(amount, pawcmm[layer], ll[layer], dul[layer], heldAtLL[layer]);
      step.1 >= 0.0 &&
      Fill(amount, pawcmm[layer..], ll[layer..], dul[layer..], heldAtLL[layer..])
      == [step.0] + Fill(step.1, pawcmm[layer + 1..], ll[layer + 1..], dul[layer + 1..], heldAtLL[layer + 1..])
  {
    assert pawcmm[layer..][1..] == pawcmm[layer + 1..];
    assert ll[layer..][1..] == ll[layer + 1..];
    assert dul[layer..][1..] == dul[layer + 1..];
    assert heldAtLL[layer..][1..] == heldAtLL[layer + 1..];
  }

  /** The layers `SWFilledFromTop` holds at LL: those whose own XF is zero. */
  function ZeroXFLayers(xf: Option<seq<real>>, n: nat): (held: seq<bool>)
    requires xf.Some? ==> |xf.value| >= n
    ensures |held| == n
    ensures forall i :: 0 <= i < n ==> (held[i] <==> xf.Some? && xf.value[i] == 0.0)
  {
    seq(n, i requires 0 <= i < n => xf.Some? && xf.value[i] == 0.0)
  }

  /** The layers at and below the first zero XF: the layers `PAWC` gives no capacity. */
  function BelowZeroXF(xf: Option<seq<real>>, n: nat): (held: seq<bool>)
    ensures |held| == n
    ensures forall i :: 0 <= i < n ==> (held[i] <==> ZeroXFAtOrAbove(xf, i))
  {
    seq(n, i requires 0 <= i < n => ZeroXFAtOrAbove(xf, i))
  }

  /** The capacity of each layer in mm: the `PAWC` capacities times the thicknesses. */
  function PAWCmm(thickness: seq<real>, ll: seq<real>, dul: seq<real>, xf: Option<seq<real>>): (r: seq<real>)
    requires |thickness| == |ll| == |dul|
    ensures |r| == |thickness|
    ensures (forall i :: 0 <= i < |thickness| ==> thickness[i] >= 0.0) ==>
      (forall i :: 0 <= i < |thickness| ==> r[i] >= 0.0) && Sum(r) >= 0.0
  {
    var r := Multiply(PAWCValues(ll, dul, xf), thickness);
    if forall i :: 0 <= i < |thickness| ==> thickness[i] >= 0.0 then
      SumNonNegative(r);
      r
    else r
  }

  /** The product of two non-negative numbers is non-negative. */
  lemma ScaledNonNegative(f: real, s: real)
    requires f >= 0.0 && s >= 0.0
    ensures f * s >= 0.0
  {
  }

  /** The water `SWFilledFromTop` places (mm): the fraction full of the total capacity. */
  function WaterToPlace(fractionFull: real, pawcmm: seq<real>): (amount: real)
    requires fractionFull >= 0.0 && Sum(pawcmm) >= 0.0
    ensures amount >= 0.0
    ensures fractionFull <= 1.0 ==> amount <= Sum(pawcmm)
    ensures fractionFull == 0.0 ==> amount == 0.0
  {
    var total := Sum(pawcmm);
    ScaledNonNegative(fractionFull, total);
    if fractionFull <= 1.0 then
      FractionOf(fractionFull, total);
      fractionFull * total
    else fractionFull * total
  }

  /** The first two statements of `SWFilledFromTop`: the `PAWC` capacities times the thicknesses. */
  method CapacitiesMm(thickness: seq<real>, ll: seq<real>, dul: seq<real>, xf: Option<seq<real>>) returns (pawcmm: seq<real>)
    requires |thickness| == |ll| == |dul|
    requires xf.Some? ==> |xf.value| >= |thickness|
    ensures pawcmm == PAWCmm(thickness, ll, dul, xf)
  {
    var pawc := PAWC(thickness, Some(ll), dul, xf);
    pawcmm := Multiply(pawc.value, thickness);
  }

  /** The requirements of the top-down fill: a non-negative fraction, non-negative thicknesses and an XF per layer. */
  predicate FillableProfile(fractionFull: real, thickness: seq<real>, xf: Option<seq<real>>)
  {
    0.0 <= fractionFull &&
    (forall i :: 0 <= i < |thickness| ==> thickness[i] >= 0.0) &&
    (xf.Some? ==> |xf.value| >= |thickness|)
  }

  /**
   * `SWFilledFromTop` as written: zeros when the layer counts differ;
   * otherwise `FractionFull` of the total capacity placed from the top down,
   * holding at LL only the layers whose own XF is zero.
   */
  method SWFilledFromTop(fractionFull: real, thickness: seq<real>, ll: seq<real>, dul: seq<real>, xf: Option<seq<real>>)
    returns (sw: seq<real>)
    requires |thickness| == |ll| == |dul| ==> FillableProfile(fractionFull, thickness, xf)
    ensures |thickness| != |ll| || |thickness| != |dul| ==> sw == Zeros(|thickness|)
    ensures |thickness| == |ll| == |dul| ==>
      var pawcmm := PAWCmm(thickness, ll, dul, xf);
      sw == Fill(WaterToPlace(fractionFull, pawcmm), pawcmm, ll, dul, ZeroXFLayers(xf, |thickness|))
  {
    if |thickness| != |ll| || |thickness| != |dul| {
      return Zeros(|thickness|);
    }
    var pawcmm := CapacitiesMm(thickness, ll, dul, xf);
    var held := ZeroXFLayers(xf, |thickness|);
    var amount := WaterToPlace(fractionFull, pawcmm);
    sw := FillFromTop(amount, pawcmm, ll, dul, held);
  }

  /**
   * `SWFilledFromTop` corrected: the layers at and below the first zero XF,
   * which `PAWC` gives no capacity, are all held at LL.
   */
  method SWFilledFromTopCorrected(fractionFull: real, thickness: seq<real>, ll: seq<real>, dul: seq<real>, xf: Option<seq<real>>)
    returns (sw: seq<real>)
    requires |thickness| == |ll| == |dul| ==> FillableProfile(fractionFull, thickness, xf)
    ensures |thickness| != |ll| || |thickness| != |dul| ==> sw == Zeros(|thickness|)
    ensures |thickness| == |ll| == |dul| ==>
      var pawcmm := PAWCmm(thickness, ll, dul, xf);
      sw == Fill(WaterToPlace(fractionFull, pawcmm), pawcmm, ll, dul, BelowZeroXF(xf, |thickness|))
  {
    if |thickness| != |ll| || |thickness| != |dul| {
      return Zeros(|thickness|);
    }
    var pawcmm := CapacitiesMm(thickness, ll, dul, xf);
    var held := BelowZeroXF(xf, |thickness|);
    var amount := WaterToPlace(fractionFull, pawcmm);
    sw := FillFromTop(amount, pawcmm, ll, dul, held);
  }

  // ----- What the fill keeps -----

  /** LL and DUL measured in every layer, with LL not above DUL. */
  predicate SoundLimits(ll: seq<real>, dul: seq<real>)
    requires |ll| == |dul|
  {
    forall i :: 0 <= i < |ll| ==> ll[i] != MissingValue && dul[i] != MissingValue && ll[i] <= dul[i]
  }

  /**
   * With sound limits, a layer the corrected fill holds at LL has no capacity
   * and any other layer's capacity is its range from LL to DUL times its thickness.
   */
  lemma CorrectedCapacities(thickness: seq<real>, ll: seq<real>, dul: seq<real>, xf: Option<seq<real>>)
    requires |thickness| == |ll| == |dul| && SoundLimits(ll, dul)
    ensures var pawcmm := PAWCmm(thickness, ll, dul, xf);
      var held := BelowZeroXF(xf, |thickness|);
      (forall i :: 0 <= i < |ll| && held[i] ==> pawcmm[i] == 0.0) &&
      (forall i :: 0 <= i < |ll| && !held[i] ==> pawcmm[i] == (dul[i] - ll[i]) * thickness[i])
  {
    var pawcmm := PAWCmm(thickness, ll, dul, xf);
    var values := PAWCValues(ll, dul, xf);
    forall i | 0 <= i < |ll|
      ensures pawcmm[i] == values[i] * thickness[i]
    {
    }
  }

  /**
   * The corrected fill conserves water: with sound limits and a fraction of
   * at most 1, the profile holds exactly the water placed, above LL.
   */
  lemma FilledFromTopCorrectedConserves(fractionFull: real, thickness: seq<real>, ll: seq<real>, dul: seq<real>, xf: Option<seq<real>>)
    requires FillableProfile(fractionFull, thickness, xf) && fractionFull <= 1.0
    requires |thickness| == |ll| == |dul| && SoundLimits(ll, dul)
    ensures var pawcmm := PAWCmm(thickness, ll, dul, xf);
      AddedWater(Fill(WaterToPlace(fractionFull, pawcmm), pawcmm, ll, dul, BelowZeroXF(xf, |thickness|)), ll, thickness)
        == WaterToPlace(fractionFull, pawcmm)
  {
    var pawcmm := PAWCmm(thickness, ll, dul, xf);
    var amount := WaterToPlace(fractionFull, pawcmm);
    assert forall i :: 0 <= i < |ll| ==> pawcmm[i] >= 0.0;
    CorrectedCapacities(thickness, ll, dul, xf);
    FillConserves(amount, pawcmm, ll, dul, thickness, BelowZeroXF(xf, |thickness|));
  }

  /**
   * The layers `SWFilledFromTop` holds at LL are the layers `PAWC` gives no
   * capacity exactly when every layer at or below the first zero XF has a zero
   * XF of its own (in particular with no XF or no zero in it).
   */
  lemma HeldLayersAgree(xf: Option<seq<real>>, n: nat)
    requires xf.Some? ==> |xf.value| >= n
    ensures ZeroXFLayers(xf, n) == BelowZeroXF(xf, n) <==>
      forall i :: 0 <= i < n && ZeroXFAtOrAbove(xf, i) ==> xf.value[i] == 0.0
  {
    var written := ZeroXFLayers(xf, n);
    var corrected := BelowZeroXF(xf, n);
    if forall i :: 0 <= i < n && ZeroXFAtOrAbove(xf, i) ==> xf.value[i] == 0.0 {
      forall i | 0 <= i < n
        ensures written[i] == corrected[i]
      {
        if written[i] {
          assert xf.value[i] == 0.0;
          assert ZeroXFAtOrAbove(xf, i);
        }
      }
    }
  }

  /**
   * `SWFilledFromTop` as written conserves water when no layer below the first
   * zero XF has a non-zero XF: it then holds the same layers as the corrected fill.
   */
  lemma FilledFromTopConserves(fractionFull: real, thickness: seq<real>, ll: seq<real>, dul: seq<real>, xf: Option<seq<real>>)
    requires FillableProfile(fractionFull, thickness, xf) && fractionFull <= 1.0
    requires |thickness| == |ll| == |dul| && SoundLimits(ll, dul)
    requires forall i :: 0 <= i < |thickness| && ZeroXFAtOrAbove(xf, i) ==> xf.value[i] == 0.0
    ensures var pawcmm := PAWCmm(thickness, ll, dul, xf);
      AddedWater(Fill(WaterToPlace(fractionFull, pawcmm), pawcmm, ll, dul, ZeroXFLayers(xf, |thickness|)), ll, thickness)
        == WaterToPlace(fractionFull, pawcmm)
  {
    HeldLayersAgree(xf, |thickness|);
    FilledFromTopCorrectedConserves(fractionFull, thickness, ll, dul, xf);
  }

  /**
   * The input that shows the as-written fill losing track of water: three
   * 100 mm layers with LL 0.1 and DUL 0.3, XF 1, 0, 1 and nothing to place.
   * The third layer lies below a zero XF, so it has no capacity, but its own
   * XF is not zero: as written it is filled to DUL, adding 20 mm of water
   * that was never placed, while the corrected fill keeps it at LL.
   */
  lemma FilledFromTopFillsBelowZeroXF()
    ensures var thickness := [100.0, 100.0, 100.0];
      var ll := [0.1, 0.1, 0.1];
      var dul := [0.3, 0.3, 0.3];
      var xf := Some([1.0, 0.0, 1.0]);
      var pawcmm := PAWCmm(thickness, ll, dul, xf);
      var written := Fill(WaterToPlace(0.0, pawcmm), pawcmm, ll, dul, ZeroXFLayers(xf, 3));
      var corrected := Fill(WaterToPlace(0.0, pawcmm), pawcmm, ll, dul, BelowZeroXF(xf, 3));
      WaterToPlace(0.0, pawcmm) == 0.0 &&
      written == [0.1, 0.1, 0.3] && AddedWater(written, ll, thickness) == 20.0 &&
      corrected == [0.1, 0.1, 0.1] && AddedWater(corrected, ll, thickness) == 0.0
  {
    var thickness := [100.0, 100.0, 100.0];
    var ll := [0.1, 0.1, 0.1];
    var dul := [0.3, 0.3, 0.3];
    var xf := Some([1.0, 0.0, 1.0]);
    assert !ZeroXFAtOrAbove(xf, 0);
    assert xf.value[1] == 0.0;
    assert ZeroXFAtOrAbove(xf, 1) && ZeroXFAtOrAbove(xf, 2);
    var pawcmm := PAWCmm(thickness, ll, dul, xf);
    assert pawcmm == [20.0, 0.0, 0.0];
    assert ZeroXFLayers(xf, 3) == [false, true, false];
    assert BelowZeroXF(xf, 3) == [false, true, true];
    assert AddedWater([0.3], [0.1], [100.0]) == 20.0;
    assert AddedWater([0.1, 0.3], [0.1, 0.1], [100.0, 100.0]) == 20.0;
    assert AddedWater([0.1], [0.1], [100.0]) == 0.0;
    assert AddedWater([0.1, 0.1], [0.1, 0.1], [100.0, 100.0]) == 0.0;
  }

  // ----- SW -----

  /** The LL and XF the initial water is computed against. */
  datatype WaterBasis = WaterBasis(ll: Option<seq<real>>, xf: Option<seq<real>>)

  /** True when the reference crop names a measured crop of the soil, ignoring case. */
  predicate RelativeToMeasuredCrop(iw: InitialWater, soil: Soil)
  {
    iw.relativeTo.Some? &&
    exists j :: 0 <= j < |Crops(soil)| && EqualsIgnoreCase(Crops(soil)[j].name, iw.relativeTo.value)
  }

  /**
   * The first part of `SW`: the measured crop named by `RelativeTo` gives its
   * LL and XF; without one, LL15 is used with no XF, which needs a water node.
   */
  function Basis(iw: InitialWater, soil: Soil): (r: Result<WaterBasis>)
    reads Crops(soil)
    ensures !RelativeToMeasuredCrop(iw, soil) ==>
      (r.Failure? <==> soil.water.None?) &&
      (r.Failure? ==> r.error == NullReference) &&
      (r.Success? ==> r.value == WaterBasis(Some(soil.water.value.ll15), None))
    ensures RelativeToMeasuredCrop(iw, soil) ==>
      var c := Crop(soil, iw.relativeTo.value);
      c.Success? && c.value.Some? && c.value.value.Measured? &&
      r == Success(WaterBasis(c.value.value.crop.ll, c.value.value.crop.xf))
  {
    var cropIndex := if iw.relativeTo.Some? then IndexOfIgnoreCase(GetCropNames(soil), iw.relativeTo.value) else -1;
    if cropIndex == -1 then
      if soil.water.None? then Failure(NullReference)
      else Success(WaterBasis(Some(soil.water.value.ll15), None))
    else
      CropNamesFindMeasuredCrop(soil, iw.relativeTo.value);
      var crop := Crops(soil)[cropIndex];
      Success(WaterBasis(crop.ll, crop.xf))
  }

  /** A crop named by `RelativeTo` comes from the crop list, so the soil has a water node. */
  lemma MeasuredCropHasWater(iw: InitialWater, soil: Soil)
    requires RelativeToMeasuredCrop(iw, soil)
    ensures soil.water.Some?
  {
  }

  /**
   * `SW`: the initial soil water of the profile. An unset wet-soil depth
   * spreads the fraction full from the top (with the corrected held layers) or
   * evenly; a set depth wets the soil to that depth. A missing water node or
   * LL is a null reference and an array shorter than the loop reads is an
   * index error.
   */
  method SW(iw: InitialWater, soil: Soil) returns (r: Result<seq<real>>)
    requires soil.water.Some? ==> forall i :: 0 <= i < |soil.water.value.thickness| ==> soil.water.value.thickness[i] > 0.0
    requires iw.depthWetSoil.NaN? ==> 0.0 <= iw.fractionFull
    ensures Basis(iw, soil).Failure? ==> r == Failure(NullReference)
    ensures Basis(iw, soil).Success? && Basis(iw, soil).value.ll.None? ==> r == Failure(NullReference)
    ensures Basis(iw, soil).Success? && Basis(iw, soil).value.ll.Some? ==>
      soil.water.Some? &&
      var ll := Basis(iw, soil).value.ll.value;
      var xf := Basis(iw, soil).value.xf;
      var thickness := soil.water.value.thickness;
      var dul := soil.water.value.dul;
      if iw.depthWetSoil.NaN? && iw.percentMethod == FilledFromTop then
        if |thickness| != |ll| || |thickness| != |dul| then r == Success(Zeros(|thickness|))
        else if xf.Some? && |xf.value| < |thickness| then r == Failure(IndexOutOfRange)
        else
          var pawcmm := PAWCmm(thickness, ll, dul, xf);
          r == Success(Fill(WaterToPlace(iw.fractionFull, pawcmm), pawcmm, ll, dul, BelowZeroXF(xf, |thickness|)))
      else if iw.depthWetSoil.NaN? then
        if |dul| < |ll| then r == Failure(IndexOutOfRange)
        else r == Success(EvenlyDistributedProfile(iw.fractionFull, ll, dul))
      else
        if |ll| < |thickness| || |dul| < |thickness| then r == Failure(IndexOutOfRange)
        else r == Success(WetDepthProfile(iw.depthWetSoil.value, thickness, ll, dul))
  {
    var basis := Basis(iw, soil);
    if basis.Failure? || basis.value.ll.None? {
      return Failure(NullReference);
    }
    if RelativeToMeasuredCrop(iw, soil) {
      MeasuredCropHasWater(iw, soil);
    }
    var ll := basis.value.ll.value;
    var xf := basis.value.xf;
    var water := soil.water.value;
    if iw.depthWetSoil.NaN? {
      if iw.percentMethod == FilledFromTop {
        if |water.thickness| == |ll| && |water.thickness| == |water.dul| && xf.Some? && |xf.value| < |water.thickness| {
          return Failure(IndexOutOfRange);
        }
        var sw := SWFilledFromTopCorrected(iw.fractionFull, water.thickness, ll, water.dul, xf);
        return Success(sw);
      } else {
        if |water.dul| < |ll| {
          return Failure(IndexOutOfRange);
        }
        var sw := SWEvenlyDistributed(iw.fractionFull, ll, water.dul);
        return Success(sw);
      }
    } else {
      if |ll| < |water.thickness| || |water.dul| < |water.thickness| {
        return Failure(IndexOutOfRange);
      }
      var sw := SWDepthWetSoil(iw.depthWetSoil.value, water.thickness, ll, water.dul);
      return Success(sw);
    }
  }
}
