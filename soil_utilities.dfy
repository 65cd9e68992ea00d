/**
 * The soil utilities shared, line for line, by `Soils/SoilUtilities.cs` and
 * `APSIM.Shared.Soils/SoilUtility.cs`: stripping the XML declaration,
 * plant-available water capacity, crop lookup and the predicted crops of the
 * two vertosols.
 */
module SoilUtilities {
  import opened Wrappers
  import opened Text
  import opened SoilData

  /** The larger of two values (`Math.Max`). */
  function Max(a: real, b: real): (r: real)
    ensures r >= a && r >= b && (r == a || r == b)
  {
    if a >= b then a else b
  }

  /** The smaller of two values (`Math.Min`). */
  function Min(a: real, b: real): (r: real)
    ensures r <= a && r <= b && (r == a || r == b)
  {
    if a <= b then a else b
  }

  /** A fresh `double[n]`: every entry zero. */
  function Zeros(n: nat): (r: seq<real>)
    ensures |r| == n && forall i :: 0 <= i < n ==> r[i] == 0.0
  {
    seq(n, i => 0.0)
  }

  // ----- ToXML -----

  /** True when serialised text starts with an XML declaration line that `ToXML` removes. */
  predicate HasDeclarationLine(st: string)
  {
    |st| > 5 && st[..5] == "<?xml" && '\n' in st
  }

  /**
   * The text `ToXML` returns for serialised text `st`: everything after the
   * first newline when `st` starts with "<?xml" (and is longer than that),
   * otherwise `st` itself.
   */
  function StripXmlDeclaration(st: string): (r: string)
    ensures |r| <= |st| && r == st[|st| - |r|..]
    ensures HasDeclarationLine(st) ==> |r| < |st| && st[|st| - |r| - 1] == '\n'
    ensures HasDeclarationLine(st) ==> '\n' !in st[..|st| - |r| - 1]
    ensures !HasDeclarationLine(st) ==> r == st
  {
    if |st| > 5 && st[..5] == "<?xml" then
      var posEol := IndexOf(st, '\n');
      if posEol != -1 then st[posEol + 1..] else st
    else st
  }

  // ----- PAWC -----

  /** The message thrown when LL, DUL and the thicknesses disagree in length. */
  const LayerCountMismatch := "Number of soil layers in Water is different to number of layers in Water.Crop"

  /** The message of the `IndexOutOfRangeException` an array read past its end throws. */
  const IndexOutOfRange := "Index was outside the bounds of the array."

  /** The capacity of one layer: DUL minus LL, never negative, and zero when either is missing. */
  function LayerPAWC(dul: real, ll: real): (p: real)
    ensures p >= 0.0
    ensures dul == MissingValue || ll == MissingValue ==> p == 0.0
    ensures dul != MissingValue && ll != MissingValue && ll <= dul ==> p == dul - ll
    ensures p > 0.0 ==> p == dul - ll
  {
    if dul == MissingValue || ll == MissingValue then 0.0 else Max(dul - ll, 0.0)
  }

  /** True when XF is given and is zero in `layer` or some layer above it. */
  predicate ZeroXFAtOrAbove(xf: Option<seq<real>>, layer: int)
  {
    xf.Some? && exists j :: 0 <= j <= layer && j < |xf.value| && xf.value[j] == 0.0
  }

  /** True when XF is shorter than the profile and holds no zero, so its end is read past. */
  predicate XFRunsOut(xf: Option<seq<real>>, n: nat)
  {
    xf.Some? && |xf.value| < n && 0.0 !in xf.value
  }

  /** The capacities `PAWC` computes for a profile whose lengths agree. */
  function PAWCValues(ll: seq<real>, dul: seq<real>, xf: Option<seq<real>>): (r: seq<real>)
    requires |ll| == |dul|
    ensures |r| == |ll|
    ensures forall i :: 0 <= i < |ll| ==> r[i] >= 0.0
    ensures forall i :: 0 <= i < |ll| && ZeroXFAtOrAbove(xf, i) ==> r[i] == 0.0
    ensures forall i :: 0 <= i < |ll| && !ZeroXFAtOrAbove(xf, i) ==> r[i] == LayerPAWC(dul[i], ll[i])
  {
    seq(|ll|, i requires 0 <= i < |ll| => if ZeroXFAtOrAbove(xf, i) then 0.0 else LayerPAWC(dul[i], ll[i]))
  }

  /**
   * `PAWC(Thickness, LL, DUL, XF)`: the plant-available water capacity of each
   * layer (mm/mm). A null LL gives zeros; a layer-count mismatch throws; from
   * the first layer whose XF is zero downward every layer is zero, whatever XF
   * holds deeper down.
   */
  method PAWC(thickness: seq<real>, ll: Option<seq<real>>, dul: seq<real>, xf: Option<seq<real>>)
    returns (r: Result<seq<real>>)
    ensures ll.None? ==> r == Success(Zeros(|thickness|))
    ensures ll.Some? && (|thickness| != |dul| || |thickness| != |ll.value|) ==> r == Failure(LayerCountMismatch)
    ensures ll.Some? && |thickness| == |dul| == |ll.value| ==> (r.Failure? <==> XFRunsOut(xf, |thickness|))
    ensures ll.Some? && |thickness| == |dul| == |ll.value| && r.Failure? ==> r.error == IndexOutOfRange
    ensures r.Success? ==> |r.value| == |thickness|
    ensures r.Success? ==> forall i :: 0 <= i < |thickness| ==> r.value[i] >= 0.0
    ensures r.Success? ==> forall i :: 0 <= i < |thickness| && ZeroXFAtOrAbove(xf, i) ==> r.value[i] == 0.0
    ensures r.Success? && ll.Some? ==>
      forall i :: 0 <= i < |thickness| && !ZeroXFAtOrAbove(xf, i) ==> r.value[i] == LayerPAWC(dul[i], ll.value[i])
    ensures r.Success? && ll.Some? ==> r.value == PAWCValues(ll.value, dul, xf)
  {
    var n := |thickness|;
    if ll.None? {
      return Success(Zeros(n));
    }
    if n != |dul| || n != |ll.value| {
      return Failure(LayerCountMismatch);
    }
    var lower := ll.value;
    var a := new real[n];
    var layer := 0;
    while layer != n
      invariant 0 <= layer <= n
      invariant forall i :: 0 <= i < layer ==> a[i] == LayerPAWC(dul[i], lower[i])
    {
      if dul[layer] == MissingValue || lower[layer] == MissingValue {
        a[layer] := 0.0;
      } else {
        a[layer] := Max(dul[layer] - lower[layer], 0.0);
      }
      layer := layer + 1;
    }
    var zeroXFFound := false;
    layer := 0;
    while layer != n
      invariant 0 <= layer <= n
      invariant zeroXFFound <==> ZeroXFAtOrAbove(xf, layer - 1)
      invariant !zeroXFFound && xf.Some? ==> layer <= |xf.value|
      invariant forall i :: 0 <= i < layer ==> a[i] == (if ZeroXFAtOrAbove(xf, i) then 0.0 else LayerPAWC(dul[i], lower[i]))
      invariant forall i :: layer <= i < n ==> a[i] == LayerPAWC(dul[i], lower[i])
    {
      if !zeroXFFound && xf.Some? && layer == |xf.value| {
        // XF[layer] is read one past the end of XF.
        return Failure(IndexOutOfRange);
      }
      if zeroXFFound || (xf.Some? && xf.value[layer] == 0.0) {
        zeroXFFound := true;
        a[layer] := 0.0;
      }
      layer := layer + 1;
    }
    return Success(a[..]);
  }

  // ----- Crops -----

  /** `GetCropNames`: the names of the measured crops in list order, or none without a crop list. */
  function GetCropNames(soil: Soil): (names: seq<string>)
    ensures |names| == |Crops(soil)|
    ensures forall i :: 0 <= i < |names| ==> names[i] == Crops(soil)[i].name
  {
    seq(|Crops(soil)|, i requires 0 <= i < |Crops(soil)| => Crops(soil)[i].name)
  }

  /** The regression coefficients and KL profile from which a crop is predicted. */
  datatype Coefficients = Coefficients(a: seq<real>, b: real, kl: seq<real>)

  /** The crop `Crop` returns: a measured crop of the soil, or one predicted from coefficients. */
  datatype CropChoice = Measured(crop: SoilCrop) | Predicted(coefficients: Coefficients)

  /** The message thrown when a crop is neither measured nor predictable. */
  const CropNotFound := "Soil could not find crop: "

  /** The number of layers of the predicted profiles. */
  const PredictedLayerCount := 7

  /** The standard layer structure of the predicted profiles (mm). */
  const PredictedThickness: seq<real> := [150.0, 150.0, 300.0, 300.0, 300.0, 300.0, 300.0]

  /** The predicted XF: roots explore every layer. */
  const PredictedXF: seq<real> := [1.0, 1.0, 1.0, 1.0, 1.0, 1.0, 1.0]

  const WheatKL: seq<real> := [0.06, 0.06, 0.06, 0.04, 0.04, 0.02, 0.01]
  const SorghumKL: seq<real> := [0.07, 0.07, 0.07, 0.05, 0.05, 0.04, 0.03]
  const BarleyKL: seq<real> := [0.07, 0.07, 0.07, 0.05, 0.05, 0.03, 0.02]
  const ChickpeaKL: seq<real> := [0.06, 0.06, 0.06, 0.06, 0.06, 0.06, 0.06]
  const MungbeanKL: seq<real> := [0.06, 0.06, 0.06, 0.04, 0.04, 0.00, 0.00]
  const CottonKL: seq<real> := [0.10, 0.10, 0.10, 0.10, 0.09, 0.07, 0.05]
  const FababeanKL: seq<real> := [0.08, 0.08, 0.08, 0.08, 0.06, 0.04, 0.03]

  const BlackCottonA: seq<real> := [0.832, 0.868, 0.951, 0.988, 1.043, 1.095, 1.151]
  const BlackSorghumA: seq<real> := [0.699, 0.802, 0.853, 0.907, 0.954, 1.003, 1.035]
  const BlackWheatA: seq<real> := [0.124, 0.049, 0.024, 0.029, 0.146, 0.246, 0.406]
  const BlackCottonB: real := -0.0070
  const BlackSorghumB: real := -0.0038
  const BlackWheatB: real := 0.0116

  const GreyCottonA: seq<real> := [0.853, 0.851, 0.883, 0.953, 1.022, 1.125, 1.186]
  const GreySorghumA: seq<real> := [0.818, 0.864, 0.882, 0.938, 1.103, 1.096, 1.172]
  const GreyWheatA: seq<real> := [0.660, 0.655, 0.701, 0.745, 0.845, 0.933, 1.084]
  const GreyBarleyA: seq<real> := [0.847, 0.866, 0.835, 0.872, 0.981, 1.036, 1.152]
  const GreyChickpeaA: seq<real> := [0.435, 0.452, 0.481, 0.595, 0.668, 0.737, 0.875]
  const GreyFababeanA: seq<real> := [0.467, 0.451, 0.396, 0.336, 0.190, 0.134, 0.084]
  const GreyMungbeanA: seq<real> := [0.779, 0.770, 0.834, 0.990, 1.008, 1.144, 1.150]
  const GreyCottonB: real := -0.0082
  const GreySorghumB: real := -0.007
  const GreyWheatB: real := -0.0032
  const GreyBarleyB: real := -0.0051
  const GreyChickpeaB: real := 0.0029
  const GreyFababeanB: real := 0.02455
  const GreyMungbeanB: real := -0.0034

  /** The crops listed as predictable for either vertosol. */
  const BlackVertosolCropList: seq<string> := ["Wheat", "Sorghum", "Cotton"]
  const GreyVertosolCropList: seq<string> := ["Wheat", "Sorghum", "Cotton"]

  /** The crops whose coefficients each vertosol's table holds, lower-cased. */
  const BlackVertosolTableCrops: seq<string> := ["cotton", "sorghum", "wheat"]
  const GreyVertosolTableCrops: seq<string> := ["cotton", "sorghum", "wheat", "barley", "chickpea", "fababean", "mungbean"]

  // The crop names the tables are keyed by, lower-cased: comparing lower-cased
  // text is comparing ignoring case.
  lemma LowerWheat() ensures ToLower("Wheat") == "wheat" { }
  lemma LowerSorghum() ensures ToLower("Sorghum") == "sorghum" { }
  lemma LowerCotton() ensures ToLower("Cotton") == "cotton" { }
  lemma LowerBarley() ensures ToLower("Barley") == "barley" { }

  /** True when the soil's type is the name whose lower-cased form is `lower`, ignoring case. */
  predicate IsSoilType(soil: Soil, lower: string)
  {
    soil.soilType.Some? && ToLower(soil.soilType.value) == lower
  }

  /** `PredictedCropNames`: the listed crops of a black or grey vertosol, otherwise none. */
  function PredictedCropNames(soil: Soil): (names: seq<string>)
    ensures IsSoilType(soil, "black vertosol") || IsSoilType(soil, "grey vertosol") ==> names == ["Wheat", "Sorghum", "Cotton"]
    ensures !IsSoilType(soil, "black vertosol") && !IsSoilType(soil, "grey vertosol") ==> names == []
  {
    if soil.soilType.Some? then
      var soilType := ToLower(soil.soilType.value);
      if soilType == "black vertosol" then BlackVertosolCropList
      else if soilType == "grey vertosol" then GreyVertosolCropList
      else []
    else []
  }

  /**
   * The table selection of `PredictedCrop`: the coefficients for `cropName` on
   * a black or grey vertosol, or none (the method's null) otherwise.
   */
  function PredictedCoefficients(soil: Soil, cropName: string): (r: Option<Coefficients>)
    ensures soil.soilType.None? ==> r.None?
    ensures r.Some? ==> |r.value.a| == PredictedLayerCount && |r.value.kl| == PredictedLayerCount
  {
    if soil.soilType.None? then None
    else
      var soilType := ToLower(soil.soilType.value);
      var crop := ToLower(cropName);
      if soilType == "black vertosol" then
        if crop == "cotton" then Some(Coefficients(BlackCottonA, BlackCottonB, CottonKL))
        else if crop == "sorghum" then Some(Coefficients(BlackSorghumA, BlackSorghumB, SorghumKL))
        else if crop == "wheat" then Some(Coefficients(BlackWheatA, BlackWheatB, WheatKL))
        else None
      else if soilType == "grey vertosol" then
        if crop == "cotton" then Some(Coefficients(GreyCottonA, GreyCottonB, CottonKL))
        else if crop == "sorghum" then Some(Coefficients(GreySorghumA, GreySorghumB, SorghumKL))
        else if crop == "wheat" then Some(Coefficients(GreyWheatA, GreyWheatB, WheatKL))
        else if crop == "barley" then Some(Coefficients(GreyBarleyA, GreyBarleyB, BarleyKL))
        else if crop == "chickpea" then Some(Coefficients(GreyChickpeaA, GreyChickpeaB, ChickpeaKL))
        else if crop == "fababean" then Some(Coefficients(GreyFababeanA, GreyFababeanB, FababeanKL))
        else if crop == "mungbean" then Some(Coefficients(GreyMungbeanA, GreyMungbeanB, MungbeanKL))
        else None
      else None
  }

  /** A crop is predictable exactly when its soil type's table names it, ignoring case. */
  lemma PredictableCrops(soil: Soil, cropName: string)
    ensures IsSoilType(soil, "black vertosol") ==>
      (PredictedCoefficients(soil, cropName).Some? <==> ToLower(cropName) in BlackVertosolTableCrops)
    ensures IsSoilType(soil, "grey vertosol") ==>
      (PredictedCoefficients(soil, cropName).Some? <==> ToLower(cropName) in GreyVertosolTableCrops)
    ensures !IsSoilType(soil, "black vertosol") && !IsSoilType(soil, "grey vertosol") ==> PredictedCoefficients(soil, cropName).None?
  {
  }

  /** Every crop `PredictedCropNames` lists can be predicted for that soil. */
  lemma ListedCropsArePredictable(soil: Soil)
    ensures forall name :: name in PredictedCropNames(soil) ==> PredictedCoefficients(soil, name).Some?
  {
    LowerWheat();
    LowerSorghum();
    LowerCotton();
  }

  /** A grey vertosol predicts barley although `PredictedCropNames` does not list it. */
  lemma GreyVertosolPredictsUnlistedCrops(soil: Soil)
    requires IsSoilType(soil, "grey vertosol")
    ensures PredictedCoefficients(soil, "Barley").Some? && "Barley" !in PredictedCropNames(soil)
  {
    LowerBarley();
  }

  /**
   * `Crop`: null without a crop list; otherwise the first measured crop whose
   * name matches ignoring case, else the predicted crop, else an exception.
   */
  function Crop(soil: Soil, cropName: string): (r: Result<Option<CropChoice>>)
    ensures r == Success(None) <==> !HasCropList(soil)
    ensures r.Success? && r.value.Some? && r.value.value.Measured? ==>
      exists i :: 0 <= i < |Crops(soil)| && Crops(soil)[i] == r.value.value.crop &&
        EqualsIgnoreCase(Crops(soil)[i].name, cropName) &&
        forall j :: 0 <= j < i ==> !EqualsIgnoreCase(Crops(soil)[j].name, cropName)
    ensures r.Success? && r.value.Some? && r.value.value.Predicted? ==>
      (forall j :: 0 <= j < |Crops(soil)| ==> !EqualsIgnoreCase(Crops(soil)[j].name, cropName)) &&
      PredictedCoefficients(soil, cropName) == Some(r.value.value.coefficients)
    ensures r.Failure? <==> (HasCropList(soil) &&
      (forall j :: 0 <= j < |Crops(soil)| ==> !EqualsIgnoreCase(Crops(soil)[j].name, cropName)) &&
      PredictedCoefficients(soil, cropName).None?)
    ensures r.Failure? ==> r.error == CropNotFound + cropName
  {
    if !HasCropList(soil) then Success(None)
    else
      var i := IndexOfIgnoreCase(GetCropNames(soil), cropName);
      if i != -1 then Success(Some(Measured(Crops(soil)[i])))
      else
        match PredictedCoefficients(soil, cropName)
        case Some(c) => Success(Some(Predicted(c)))
        case None => Failure(CropNotFound + cropName)
  }

  /** A name found among `GetCropNames` is the measured crop `Crop` returns. */
  lemma CropNamesFindMeasuredCrop(soil: Soil, cropName: string)
    requires IndexOfIgnoreCase(GetCropNames(soil), cropName) != -1
    ensures Crop(soil, cropName) == Success(Some(Measured(Crops(soil)[IndexOfIgnoreCase(GetCropNames(soil), cropName)])))
  {
  }

  // ----- PredictedLL -----

  /** The regression of LL on DUL used by `PredictedLL` (both in mm/mm, the regression in percent). */
  function RegressedLL(dul: real, a: real, b: real): real
  {
    var dulPercent := dul * 100.0;
    dulPercent * (a + b * dulPercent) / 100.0
  }

  /** A predicted layer's LL: raised to LL15, then lowered to DUL, DUL taking priority. */
  function BoundedLL(x: real, ll15: real, dul: real): (r: real)
    ensures r <= dul
    ensures ll15 <= dul ==> ll15 <= r
    ensures ll15 <= x <= dul ==> r == x
    ensures x < ll15 <= dul ==> r == ll15
    ensures ll15 <= dul < x ==> r == dul
  {
    Min(Max(x, ll15), dul)
  }

  /**
   * `PredictedLL`: the LL of the seven predicted layers from the soil's LL15 and
   * DUL on that structure, each bounded to [LL15, DUL], and the top three
   * layers replaced by LL15.
   */
  method PredictedLL(ll15: seq<real>, dul: seq<real>, a: seq<real>, b: real) returns (ll: seq<real>)
    requires |ll15| >= PredictedLayerCount && |dul| >= PredictedLayerCount && |a| >= PredictedLayerCount
    ensures |ll| == PredictedLayerCount
    ensures forall i :: 0 <= i < 3 ==> ll[i] == ll15[i]
    ensures forall i :: 3 <= i < PredictedLayerCount ==> ll[i] == BoundedLL(RegressedLL(dul[i], a[i], b), ll15[i], dul[i])
    ensures forall i :: 3 <= i < PredictedLayerCount ==> ll[i] <= dul[i]
    ensures forall i :: 0 <= i < PredictedLayerCount && ll15[i] <= dul[i] ==> ll15[i] <= ll[i] <= dul[i]
  {
    var values := new real[|PredictedThickness|];
    var i := 0;
    while i != |PredictedThickness|
      invariant 0 <= i <= |PredictedThickness|
      invariant forall j :: 0 <= j < i ==> values[j] == BoundedLL(RegressedLL(dul[j], a[j], b), ll15[j], dul[j])
    {
      var dulPercent := dul[i] * 100.0;
      values[i] := dulPercent * (a[i] + b * dulPercent);
      values[i] := values[i] / 100.0;
      values[i] := Max(values[i], ll15[i]);
      values[i] := Min(values[i], dul[i]);
      i := i + 1;
    }
    if values.Length >= 3 {
      values[0] := ll15[0];
      values[1] := ll15[1];
      values[2] := ll15[2];
    }
    ll := values[..];
  }
}
