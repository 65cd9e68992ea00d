/**
 * The sample and layer-mapping steps of `APSIM.Shared.Soils/SoilUtility.cs`:
 * converting a sample's soil water between units, and the guard and clean-up
 * steps of mapping values from one layer structure to another.
 */
module SoilMapping {
  import opened Wrappers
  import opened SoilData
  import opened SoilLayers

  // ----- SW unit conversion -----

  /** The units of a sample's soil water: mm/mm, g/g or mm. */
  datatype SWUnits = Volumetric | Gravimetric | Millimetres

  /** True when every entry is non-zero. */
  predicate NonZero(s: seq<real>)
  {
    forall i :: 0 <= i < |s| ==> s[i] != 0.0
  }

  /** Element-wise quotient (`Utility.Math.Divide`) by non-zero divisors. */
  function Divide(a: seq<real>, b: seq<real>): (r: seq<real>)
    requires |a| == |b| && NonZero(b)
    ensures |r| == |a| && forall i :: 0 <= i < |a| ==> r[i] == a[i] / b[i]
  {
    seq(|a|, i requires 0 <= i < |a| => a[i] / b[i])
  }

  /**
   * The volumetric content (mm/mm) a layer's value in `units` stands for, in
   * a layer of thickness `t` (mm) and bulk density `bd` (g/cc).
   */
  function VolumetricContent(x: real, units: SWUnits, t: real, bd: real): real
    requires t != 0.0
  {
    match units
    case Volumetric => x
    case Gravimetric => x * bd
    case Millimetres => x / t
  }

  /** Distinct values in the same units stand for distinct contents. */
  lemma VolumetricContentInjective(x: real, y: real, units: SWUnits, t: real, bd: real)
    requires t != 0.0 && bd != 0.0
    requires VolumetricContent(x, units, t, bd) == VolumetricContent(y, units, t, bd)
    ensures x == y
  {
    match units
    case Volumetric =>
    case Gravimetric =>
      assert (x - y) * bd == 0.0;
    case Millimetres =>
      assert x == (x / t) * t;
      assert y == (y / t) * t;
  }

  /** The layers a conversion divides by: one thickness and one bulk density per value, none zero. */
  predicate ConvertibleLayers(sw: seq<real>, thickness: seq<real>, bd: seq<real>)
  {
    |sw| == |thickness| == |bd| && NonZero(thickness) && NonZero(bd)
  }

  /**
   * The divisors a conversion from `from` to `to` uses are non-zero: the
   * thickness when converting from mm, the bulk density when converting to g/g.
   */
  predicate ConversionDivisors(sw: seq<real>, from: SWUnits, to: SWUnits, thickness: seq<real>, bd: seq<real>)
  {
    |sw| == |thickness| == |bd| &&
    (from == Millimetres ==> NonZero(thickness)) &&
    (to == Gravimetric ==> NonZero(bd))
  }

  /**
   * `SW(soil, sample, toUnits)`: the sample's soil water in `toUnits`, given
   * the soil's bulk density mapped onto the sample's layers. Unchanged when
   * the units already agree or the sample has no SW; otherwise, on layers
   * with non-zero thickness and bulk density, every layer keeps its
   * volumetric content.
   */
  function ConvertSW(sw: Option<seq<real>>, from: SWUnits, to: SWUnits, thickness: seq<real>, bd: seq<real>): (r: Option<seq<real>>)
    requires sw.Some? && from != to ==> ConversionDivisors(sw.value, from, to, thickness, bd)
    ensures from == to || sw.None? ==> r == sw
    ensures r.Some? <==> sw.Some?
    ensures r.Some? ==> |r.value| == |sw.value|
    ensures sw.Some? && from != to && ConvertibleLayers(sw.value, thickness, bd) ==> forall i :: 0 <= i < |sw.value| ==>
      VolumetricContent(r.value[i], to, thickness[i], bd[i]) == VolumetricContent(sw.value[i], from, thickness[i], bd[i])
  {
    if from != to && sw.Some? then
      var x := sw.value;
      match (from, to)
      case (Volumetric, Gravimetric) => Some(Divide(x, bd))
      case (Volumetric, Millimetres) => Some(Multiply(x, thickness))
      case (Gravimetric, Volumetric) => Some(Multiply(x, bd))
      case (Gravimetric, Millimetres) => Some(Multiply(Multiply(x, bd), thickness))
      case (Millimetres, Volumetric) => Some(Divide(x, thickness))
      case (Millimetres, Gravimetric) => Some(Divide(Divide(x, thickness), bd))
    else sw
  }

  /** Converting to other units and back gives the original values. */
  lemma ConvertSWRoundTrip(sw: seq<real>, from: SWUnits, to: SWUnits, thickness: seq<real>, bd: seq<real>)
    requires ConvertibleLayers(sw, thickness, bd)
    ensures ConvertSW(ConvertSW(Some(sw), from, to, thickness, bd), to, from, thickness, bd) == Some(sw)
  {
    var there := ConvertSW(Some(sw), from, to, thickness, bd).value;
    var back := ConvertSW(Some(there), to, from, thickness, bd).value;
    forall i | 0 <= i < |sw|
      ensures back[i] == sw[i]
    {
      if from != to {
        VolumetricContentInjective(back[i], sw[i], from, thickness[i], bd[i]);
      }
    }
    assert back == sw;
  }

  // ----- Map: guard and clean-up -----

  /** `RemoveMissingValuesFromBottom`: the values without their trailing NaN entries. */
  function StripMissingFromBottom(s: seq<Double>): (r: seq<Double>)
    ensures |r| <= |s| && r == s[..|r|]
    ensures r != [] ==> r[|r| - 1] != NaN
    ensures forall i :: |r| <= i < |s| ==> s[i] == NaN
  {
    if s == [] then []
    else if s[|s| - 1] == NaN then StripMissingFromBottom(s[..|s| - 1])
    else s
  }

  /** Values with NaN in the same places lose the same number of trailing entries. */
  lemma {:induction false} StripSamePattern(a: seq<Double>, b: seq<Double>)
    requires |a| == |b|
    requires forall i :: 0 <= i < |a| ==> (a[i] == NaN <==> b[i] == NaN)
    ensures |StripMissingFromBottom(a)| == |StripMissingFromBottom(b)|
  {
    if a != [] && a[|a| - 1] == NaN {
      StripSamePattern(a[..|a| - 1], b[..|b| - 1]);
    }
  }

  /** True when layer `i` is dropped by the clean-up: its value or thickness is NaN, or it has no thickness. */
  predicate MissingLayer(values: seq<Double>, thickness: seq<Double>, i: nat)
    requires i < |values|
  {
    values[i] == NaN || i >= |thickness| || thickness[i] == NaN
  }

  /** The values after the clean-up loop: NaN in every missing layer. */
  function MarkedValues(values: seq<Double>, thickness: seq<Double>): (r: seq<Double>)
    ensures |r| == |values|
    ensures forall i :: 0 <= i < |values| && MissingLayer(values, thickness, i) ==> r[i] == NaN
    ensures forall i :: 0 <= i < |values| && !MissingLayer(values, thickness, i) ==> r[i] == values[i]
  {
    seq(|values|, i requires 0 <= i < |values| => if MissingLayer(values, thickness, i) then NaN else values[i])
  }

  /** The thicknesses after the clean-up loop: extended to the values' length, NaN in every missing layer. */
  function MarkedThickness(values: seq<Double>, thickness: seq<Double>): (r: seq<Double>)
    ensures |r| == if |thickness| >= |values| then |thickness| else |values|
    ensures forall i :: 0 <= i < |values| && MissingLayer(values, thickness, i) ==> r[i] == NaN
    ensures forall i :: 0 <= i < |values| && !MissingLayer(values, thickness, i) ==> r[i] == thickness[i]
    ensures forall i :: |values| <= i < |thickness| ==> r[i] == thickness[i]
  {
    var n := if |thickness| >= |values| then |thickness| else |values|;
    seq(n, i requires 0 <= i < n => if i < |values| && MissingLayer(values, thickness, i) then NaN else thickness[i])
  }

  /**
   * The "remove missing layers" loop of `Map`: a layer whose value or
   * thickness is NaN, or that has no thickness, gets NaN in both arrays; the
   * thickness array grows to the values' length.
   */
  method RemoveMissingLayers(values: seq<Double>, thickness: seq<Double>) returns (v: seq<Double>, t: seq<Double>)
    ensures v == MarkedValues(values, thickness)
    ensures t == MarkedThickness(values, thickness)
  {
    v := values;
    t := thickness;
    var i := 0;
    while i < |v|
      invariant 0 <= i <= |v| == |values|
      invariant |t| == if |thickness| >= i then |thickness| else i
      invariant forall j :: 0 <= j < i ==> v[j] == MarkedValues(values, thickness)[j]
      invariant forall j :: i <= j < |v| ==> v[j] == values[j]
      invariant forall j :: 0 <= j < i ==> t[j] == MarkedThickness(values, thickness)[j]
      invariant forall j :: i <= j < |t| ==> t[j] == thickness[j]
    {
      if v[i] == NaN || i >= |t| || t[i] == NaN {
        v := v[i := NaN];
        if i == |t| {
          t := t + [Num(0.0)];
        }
        t := t[i := NaN];
      }
      i := i + 1;
    }
  }

  /** The values and thicknesses `Map` works on: trailing missing layers stripped after the clean-up. */
  function CleanedLayers(values: seq<Double>, thickness: seq<Double>): (seq<Double>, seq<Double>)
  {
    var fromThickness := StripMissingFromBottom(thickness);
    (StripMissingFromBottom(MarkedValues(values, fromThickness)),
     StripMissingFromBottom(MarkedThickness(values, fromThickness)))
  }

  /**
   * After the clean-up, values and thicknesses can differ in length only when
   * the source has more (non-missing) thicknesses than values.
   */
  lemma CleanedLengthsAgree(values: seq<Double>, thickness: seq<Double>)
    requires |StripMissingFromBottom(thickness)| <= |values|
    ensures |CleanedLayers(values, thickness).0| == |CleanedLayers(values, thickness).1|
  {
    var fromThickness := StripMissingFromBottom(thickness);
    var v := MarkedValues(values, fromThickness);
    var t := MarkedThickness(values, fromThickness);
    forall i | 0 <= i < |v|
      ensures v[i] == NaN <==> t[i] == NaN
    {
      if !MissingLayer(values, fromThickness, i) {
        assert v[i] == values[i] && t[i] == fromThickness[i];
      }
    }
    StripSamePattern(v, t);
  }

  /** The final step of `Map`: every NaN output becomes 0. */
  function ZeroNaN(s: seq<Double>): (r: seq<Double>)
    ensures |r| == |s|
    ensures forall i :: 0 <= i < |s| ==> r[i] != NaN
    ensures forall i :: 0 <= i < |s| && s[i] != NaN ==> r[i] == s[i]
  {
    seq(|s|, i requires 0 <= i < |s| => if s[i] == NaN then Num(0.0) else s[i])
  }

  /** The clean-up loop at the end of `Map`. */
  method ReplaceNaNByZero(toMass: seq<Double>) returns (r: seq<Double>)
    ensures r == ZeroNaN(toMass)
  {
    var a := new Double[|toMass|](i requires 0 <= i < |toMass| => toMass[i]);
    var i := 0;
    while i < a.Length
      invariant 0 <= i <= a.Length == |toMass|
      invariant forall j :: 0 <= j < i ==> a[j] == ZeroNaN(toMass)[j]
      invariant forall j :: i <= j < a.Length ==> a[j] == toMass[j]
    {
      if a[i] == NaN {
        a[i] := Num(0.0);
      }
      i := i + 1;
    }
    r := a[..];
  }

  /**
   * `Map`'s guard and clean-up steps around the re-layering, which is the
   * parameter `remap` (from the cleaned values and thicknesses to the values
   * on the target layers). Null input gives null; a cleaned structure equal to
   * the target returns the cleaned values; a length mismatch gives null;
   * otherwise the re-layered values with NaN replaced by 0.
   */
  method Map(fValues: Option<seq<Double>>, fThickness: Option<seq<Double>>, toThickness: seq<Double>,
             remap: (seq<Double>, seq<Double>) -> seq<Double>)
    returns (r: Option<seq<Double>>)
    ensures fValues.None? || fThickness.None? ==> r.None?
    ensures fValues.Some? && fThickness.Some? ==>
      var cleaned := CleanedLayers(fValues.value, fThickness.value);
      cleaned.1 == toThickness ==> r == Some(cleaned.0)
    ensures fValues.Some? && fThickness.Some? ==>
      var cleaned := CleanedLayers(fValues.value, fThickness.value);
      cleaned.1 != toThickness && |cleaned.0| != |cleaned.1| ==> r.None?
    ensures fValues.Some? && fThickness.Some? ==>
      var cleaned := CleanedLayers(fValues.value, fThickness.value);
      cleaned.1 != toThickness && |cleaned.0| == |cleaned.1| ==> r == Some(ZeroNaN(remap(cleaned.0, cleaned.1)))
  {
    if fValues.None? || fThickness.None? {
      return None;
    }
    var fromThickness := StripMissingFromBottom(fThickness.value);
    var fromValues := fValues.value;
    fromValues, fromThickness := RemoveMissingLayers(fromValues, fromThickness);
    fromValues := StripMissingFromBottom(fromValues);
    fromThickness := StripMissingFromBottom(fromThickness);
    if fromThickness == toThickness {
      return Some(fromValues);
    }
    if |fromValues| != |fromThickness| {
      return None;
    }
    var toMass := remap(fromValues, fromThickness);
    var cleaned := ReplaceNaNByZero(toMass);
    return Some(cleaned);
  }
}
