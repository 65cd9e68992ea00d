/**
 * `Soils/Defaults.cs`: the soil-protocol defaults. Missing analysis values
 * become 0 (pH 7); a crop with no XF gets XF 1 everywhere, marked
 * "Estimated"; a crop with no KL gets the protocol KL profile of its crop,
 * interpolated at the depth of each of its layers.
 */
module SoilDefaults {
  import opened Wrappers
  import opened Text
  import opened SoilData
  import opened SoilLayers

  // ----- The protocol tables -----

  /** The crops the protocol gives KL values for, one per row of `DefaultKLs`. */
  const CropNames: seq<string> := ["Wheat", "Oats",
    "Sorghum", "Barley", "Chickpea", "Mungbean", "Cotton", "Canola",
    "PigeonPea", "Maize", "Cowpea", "Sunflower", "Fababean", "Lucerne",
    "Lupin", "Lentil", "Triticale", "Millet", "Soybean"]

  /** The depths (mm) at which the protocol KL values are given, one per column of `DefaultKLs`. */
  const DefaultKLThickness: seq<real> := [150.0, 300.0, 600.0, 900.0, 1200.0, 1500.0, 1800.0]

  /** The protocol KL values: a row per crop of `CropNames`, a column per depth of `DefaultKLThickness`. */
  const DefaultKLs: seq<seq<real>> := [
    [0.06, 0.06, 0.06, 0.04, 0.04, 0.02, 0.01],
    [0.06, 0.06, 0.06, 0.04, 0.04, 0.02, 0.01],
    [0.07, 0.07, 0.07, 0.05, 0.05, 0.04, 0.03],
    [0.07, 0.07, 0.07, 0.05, 0.05, 0.03, 0.02],
    [0.06, 0.06, 0.06, 0.06, 0.06, 0.06, 0.06],
    [0.06, 0.06, 0.06, 0.04, 0.04, 0.00, 0.00],
    [0.10, 0.10, 0.10, 0.10, 0.09, 0.07, 0.05],
    [0.06, 0.06, 0.06, 0.04, 0.04, 0.02, 0.01],
    [0.06, 0.06, 0.06, 0.05, 0.04, 0.02, 0.01],
    [0.06, 0.06, 0.06, 0.04, 0.04, 0.02, 0.01],
    [0.06, 0.06, 0.06, 0.04, 0.04, 0.02, 0.01],
    [0.10, 0.10, 0.08, 0.06, 0.04, 0.02, 0.01],
    [0.08, 0.08, 0.08, 0.08, 0.06, 0.04, 0.03],
    [0.10, 0.10, 0.10, 0.10, 0.09, 0.09, 0.09],
    [0.06, 0.06, 0.06, 0.04, 0.04, 0.02, 0.01],
    [0.06, 0.06, 0.06, 0.04, 0.04, 0.02, 0.01],
    [0.07, 0.07, 0.07, 0.04, 0.02, 0.01, 0.01],
    [0.07, 0.07, 0.07, 0.05, 0.05, 0.04, 0.03],
    [0.06, 0.06, 0.06, 0.04, 0.04, 0.02, 0.01]]

  /** The table is rectangular: a row per crop name, a column per depth, every value a KL between 0 and 1. */
  predicate KLTableShape()
  {
    |DefaultKLs| == |CropNames| &&
    (forall r :: 0 <= r < |DefaultKLs| ==> |DefaultKLs[r]| == |DefaultKLThickness|) &&
    (forall r, c :: 0 <= r < |DefaultKLs| && 0 <= c < |DefaultKLs[r]| ==> 0.0 <= DefaultKLs[r][c] <= 1.0)
  }

  /** The 19 crop names index the 19 rows of 7 values one to one, and the depths increase. */
  lemma KLTableIsRectangular()
    ensures KLTableShape()
    ensures |CropNames| == 19 && |DefaultKLThickness| == 7
    ensures forall i :: 0 < i < |DefaultKLThickness| ==> DefaultKLThickness[i - 1] < DefaultKLThickness[i]
  {
  }

  /** `GetRowOfArray`: the values of one row of a table, in column order, appended one at a time. */
  method GetRowOfArray(table: seq<seq<real>>, row: nat) returns (values: seq<real>)
    requires row < |table|
    ensures values == table[row]
  {
    values := [];
    var col := 0;
    while col < |table[row]|
      invariant 0 <= col <= |table[row]|
      invariant values == table[row][..col]
    {
      values := values + [table[row][col]];
      col := col + 1;
    }
  }

  // ----- CheckAnalysisForMissingValues -----

  /** The analysis values with every NaN among the first `n` replaced by `fill`. */
  function ReplaceNaN(values: seq<Double>, n: nat, fill: real): (r: seq<Double>)
    ensures |r| == |values|
    ensures forall i :: 0 <= i < |values| && i < n ==> r[i] != NaN
    ensures forall i :: 0 <= i < |values| && values[i] != NaN ==> r[i] == values[i]
    ensures forall i :: n <= i < |values| ==> r[i] == values[i]
    ensures forall i :: 0 <= i < |values| && i < n && values[i] == NaN ==> r[i] == Num(fill)
    ensures n == 0 ==> r == values
  {
    seq(|values|, i requires 0 <= i < |values| => if i < n && values[i] == NaN then Num(fill) else values[i])
  }

  /** A null array stays null; a present one has its NaNs within the layers replaced. */
  function ReplaceNaNIn(values: Option<seq<Double>>, n: nat, fill: real): (r: Option<seq<Double>>)
    ensures r.None? <==> values.None?
    ensures r.Some? ==> r.value == ReplaceNaN(values.value, n, fill)
  {
    if values.None? then None else Some(ReplaceNaN(values.value, n, fill))
  }

  /** Widening the replaced range by one layer replaces that layer's NaN, if it has one. */
  lemma ReplaceNaNStep(values: seq<Double>, i: nat, fill: real)
    requires i < |values|
    ensures values[i] == NaN ==> ReplaceNaN(values, i + 1, fill) == ReplaceNaN(values, i, fill)[i := Num(fill)]
    ensures values[i] != NaN ==> ReplaceNaN(values, i + 1, fill) == ReplaceNaN(values, i, fill)
  {
    if values[i] == NaN {
      assert ReplaceNaN(values, i + 1, fill) == ReplaceNaN(values, i, fill)[i := Num(fill)];
    } else {
      assert ReplaceNaN(values, i + 1, fill) == ReplaceNaN(values, i, fill);
    }
  }

  /** Replacing NaNs a second time changes nothing. */
  lemma ReplaceNaNIdempotent(values: seq<Double>, n: nat, fill: real)
    ensures ReplaceNaN(ReplaceNaN(values, n, fill), n, fill) == ReplaceNaN(values, n, fill)
  {
  }

  /** No NaN is left within the layers once the replacement is done. */
  predicate NoNaNWithin(values: Option<seq<Double>>, n: nat)
  {
    values.Some? ==> forall i :: 0 <= i < |values.value| && i < n ==> values.value[i] != NaN
  }

  /** Every analysis array that is present covers every analysis layer. */
  predicate AnalysisCovered(analysis: Analysis)
    reads analysis
  {
    var n := |analysis.thickness|;
    (analysis.cl.Some? ==> |analysis.cl.value| >= n) &&
    (analysis.ec.Some? ==> |analysis.ec.value| >= n) &&
    (analysis.esp.Some? ==> |analysis.esp.value| >= n) &&
    (analysis.ph.Some? ==> |analysis.ph.value| >= n)
  }

  /**
   * `CheckAnalysisForMissingValues`: walks the analysis layers and sets each
   * NaN CL, EC and ESP to 0 and each NaN pH to 7; null arrays are skipped.
   */
  method CheckAnalysisForMissingValues(analysis: Analysis)
    requires AnalysisCovered(analysis)
    modifies analysis
    ensures analysis.cl == ReplaceNaNIn(old(analysis.cl), |analysis.thickness|, 0.0)
    ensures analysis.ec == ReplaceNaNIn(old(analysis.ec), |analysis.thickness|, 0.0)
    ensures analysis.esp == ReplaceNaNIn(old(analysis.esp), |analysis.thickness|, 0.0)
    ensures analysis.ph == ReplaceNaNIn(old(analysis.ph), |analysis.thickness|, 7.0)
  {
    var n := |analysis.thickness|;
    var i := 0;
    while i < n
      invariant 0 <= i <= n
      invariant analysis.cl == ReplaceNaNIn(old(analysis.cl), i, 0.0)
      invariant analysis.ec == ReplaceNaNIn(old(analysis.ec), i, 0.0)
      invariant analysis.esp == ReplaceNaNIn(old(analysis.esp), i, 0.0)
      invariant analysis.ph == ReplaceNaNIn(old(analysis.ph), i, 7.0)
    {
      if old(analysis.cl).Some? {
        ReplaceNaNStep(old(analysis.cl).value, i, 0.0);
      }
      if old(analysis.ec).Some? {
        ReplaceNaNStep(old(analysis.ec).value, i, 0.0);
      }
      if old(analysis.esp).Some? {
        ReplaceNaNStep(old(analysis.esp).value, i, 0.0);
      }
      if old(analysis.ph).Some? {
        ReplaceNaNStep(old(analysis.ph).value, i, 7.0);
      }
      if analysis.cl.Some? && analysis.cl.value[i] == NaN {
        analysis.cl := Some(analysis.cl.value[i := Num(0.0)]);
      }
      if analysis.ec.Some? && analysis.ec.value[i] == NaN {
        analysis.ec := Some(analysis.ec.value[i := Num(0.0)]);
      }
      if analysis.esp.Some? && analysis.esp.value[i] == NaN {
        analysis.esp := Some(analysis.esp.value[i := Num(0.0)]);
      }
      if analysis.ph.Some? && analysis.ph.value[i] == NaN {
        analysis.ph := Some(analysis.ph.value[i := Num(7.0)]);
      }
      i := i + 1;
    }
  }

  /** After the check no analysis array holds a NaN within the layers. */
  lemma CheckedAnalysisHasNoNaN(values: Option<seq<Double>>, n: nat, fill: real)
    ensures NoNaNWithin(ReplaceNaNIn(values, n, fill), n)
  {
  }

  // ----- FillInKLForCrop -----

  /**
   * The protocol KL profile of a crop: none for a crop the table does not
   * name; otherwise, for each layer, the crop's table row interpolated at the
   * depth of the layer's bottom. `interp` is `MathUtilities.LinearInterpReal`.
   */
  function DefaultKL(name: string, thickness: seq<real>, interp: (real, seq<real>, seq<real>) -> real): (kl: Option<seq<real>>)
    ensures kl.None? <==> IndexOfIgnoreCase(CropNames, name) == -1
    ensures kl.Some? ==> |kl.value| == |thickness|
  {
    var row := IndexOfIgnoreCase(CropNames, name);
    if row == -1 then None else Some(KLProfile(thickness, DefaultKLs[row], interp))
  }

  /** A row of the table interpolated at the depth of the bottom of every layer. */
  function KLProfile(thickness: seq<real>, row: seq<real>, interp: (real, seq<real>, seq<real>) -> real): (kl: seq<real>)
    ensures |kl| == |thickness|
    ensures forall l :: 0 <= l < |thickness| ==> kl[l] == interp(CumThickness(thickness)[l], DefaultKLThickness, row)
  {
    var cum := CumThickness(thickness);
    seq(|thickness|, l requires 0 <= l < |thickness| => interp(cum[l], DefaultKLThickness, row))
  }

  /** A crop whose name matches a table name, ignoring case, gets a protocol KL in every layer. */
  lemma TableCropsGetKL(name: string, thickness: seq<real>, interp: (real, seq<real>, seq<real>) -> real)
    requires exists j :: 0 <= j < |CropNames| && EqualsIgnoreCase(CropNames[j], name)
    ensures DefaultKL(name, thickness, interp).Some?
    ensures |DefaultKL(name, thickness, interp).value| == |thickness|
  {
    var j :| 0 <= j < |CropNames| && EqualsIgnoreCase(CropNames[j], name);
    assert IndexOfIgnoreCase(CropNames, name) != -1;
  }

  /**
   * `FillInKLForCrop`: a crop the table names gets a KL per layer from its
   * row of the table; any other crop keeps its KL.
   */
  method FillInKLForCrop(crop: SoilCrop, interp: (real, seq<real>, seq<real>) -> real)
    modifies crop`kl
    ensures DefaultKL(crop.name, crop.thickness, interp).None? ==> crop.kl == old(crop.kl)
    ensures DefaultKL(crop.name, crop.thickness, interp).Some? ==> crop.kl == DefaultKL(crop.name, crop.thickness, interp)
  {
    var i := IndexOfIgnoreCase(CropNames, crop.name);
    if i != -1 {
      SetTableKL(crop, i, interp);
    }
  }

  /** The body of `FillInKLForCrop` for a crop found at `row` of the table. */
  method SetTableKL(crop: SoilCrop, row: int, interp: (real, seq<real>, seq<real>) -> real)
    requires 0 <= row < |DefaultKLs|
    modifies crop`kl
    ensures crop.kl == Some(KLProfile(crop.thickness, DefaultKLs[row], interp))
  {
    var kls := GetRowOfArray(DefaultKLs, row);
    var cumThickness := ToCumThickness(crop.thickness);
    var kl := InterpolateLayers(cumThickness, DefaultKLThickness, kls, interp);
    assert kl == KLProfile(crop.thickness, kls, interp);
    crop.kl := Some(kl);
  }

  /** The layer loop of `FillInKLForCrop`: one interpolated value per layer bottom, into a fresh array. */
  method InterpolateLayers(cumThickness: seq<real>, depths: seq<real>, values: seq<real>,
                           interp: (real, seq<real>, seq<real>) -> real) returns (kl: seq<real>)
    ensures |kl| == |cumThickness|
    ensures forall l :: 0 <= l < |cumThickness| ==> kl[l] == interp(cumThickness[l], depths, values)
  {
    var a := new real[|cumThickness|];
    var l := 0;
    while l < |cumThickness|
      invariant 0 <= l <= |cumThickness|
      invariant forall j :: 0 <= j < l ==> a[j] == interp(cumThickness[j], depths, values)
    {
      a[l] := interp(cumThickness[l], depths, values);
      l := l + 1;
    }
    kl := a[..];
  }

  // ----- FillInMissingValues -----

  /** The three crop fields the defaults fill in. */
  datatype CropDefaults = CropDefaults(xf: Option<seq<real>>, xfMetadata: Option<seq<string>>, kl: Option<seq<real>>)

  /** The defaults-related state of a crop. */
  function DefaultsOf(crop: SoilCrop): CropDefaults
    reads crop
  {
    CropDefaults(crop.xf, crop.xfMetadata, crop.kl)
  }

  /** `n` copies of `x`: `MathUtilities.CreateArrayOfValues` and `StringUtilities.CreateStringArray`. */
  function Repeat<T>(x: T, n: nat): (r: seq<T>)
    ensures |r| == n && forall i :: 0 <= i < n ==> r[i] == x
  {
    seq(n, i => x)
  }

  /**
   * One crop after `FillInMissingValues`: a missing XF becomes 1 in every
   * layer with "Estimated" metadata, a missing KL becomes the protocol KL;
   * whatever was present is kept.
   */
  function Filled(d: CropDefaults, name: string, thickness: seq<real>, interp: (real, seq<real>, seq<real>) -> real): (r: CropDefaults)
    ensures d.xf.Some? ==> r.xf == d.xf && r.xfMetadata == d.xfMetadata
    ensures d.xf.None? ==> r.xf == Some(Repeat(1.0, |thickness|)) && r.xfMetadata == Some(Repeat("Estimated", |thickness|))
    ensures d.kl.Some? ==> r.kl == d.kl
    ensures d.kl.None? ==> r.kl == DefaultKL(name, thickness, interp)
  {
    var (xf, meta) := if d.xf.None? then (Some(Repeat(1.0, |thickness|)), Some(Repeat("Estimated", |thickness|))) else (d.xf, d.xfMetadata);
    var kl := if d.kl.None? then DefaultKL(name, thickness, interp) else d.kl;
    CropDefaults(xf, meta, kl)
  }

  /** Filling in a crop twice is filling it once: the second pass finds nothing missing that it could fill. */
  lemma FilledIdempotent(d: CropDefaults, name: string, thickness: seq<real>, interp: (real, seq<real>, seq<real>) -> real)
    ensures Filled(Filled(d, name, thickness, interp), name, thickness, interp) == Filled(d, name, thickness, interp)
  {
  }

  /** The loop body of `FillInMissingValues` for one crop. */
  method FillInCrop(crop: SoilCrop, interp: (real, seq<real>, seq<real>) -> real)
    modifies crop
    ensures DefaultsOf(crop) == Filled(old(DefaultsOf(crop)), crop.name, crop.thickness, interp)
  {
    if crop.xf.None? {
      crop.xf := Some(Repeat(1.0, |crop.thickness|));
      crop.xfMetadata := Some(Repeat("Estimated", |crop.thickness|));
    }
    if crop.kl.None? {
      FillInKLForCrop(crop, interp);
    }
  }

  /**
   * The crop loop of `FillInMissingValues`. A crop listed twice is filled in
   * once, in effect, since filling in is idempotent.
   */
  method FillInCrops(crops: seq<SoilCrop>, interp: (real, seq<real>, seq<real>) -> real)
    modifies set c | c in crops
    ensures forall c :: c in crops ==> DefaultsOf(c) == Filled(old(DefaultsOf(c)), c.name, c.thickness, interp)
  {
    ghost var start := map c | c in crops :: DefaultsOf(c);
    var k := 0;
    while k < |crops|
      invariant 0 <= k <= |crops|
      invariant forall c :: c in crops ==> DefaultsOf(c) == FilledOnce(start[c], c in crops[..k], c, interp)
    {
      var crop := crops[k];
      label Before:
      FillInCrop(crop, interp);
      if crop in crops[..k] {
        FilledIdempotent(start[crop], crop.name, crop.thickness, interp);
      }
      assert crops[..k + 1] == crops[..k] + [crop];
      forall c | c in crops
        ensures DefaultsOf(c) == FilledOnce(start[c], c in crops[..k + 1], c, interp)
      {
        if c != crop {
          assert DefaultsOf(c) == old@Before(DefaultsOf(c));
        }
      }
      k := k + 1;
    }
    assert crops[..k] == crops;
  }

  /** The defaults of `crop` from `d`, filled in when `visited`. */
  ghost function FilledOnce(d: CropDefaults, visited: bool, crop: SoilCrop, interp: (real, seq<real>, seq<real>) -> real): CropDefaults
  {
    if visited then Filled(d, crop.name, crop.thickness, interp) else d
  }

  /**
   * `FillInMissingValues`: the analysis is checked first; then a soil with no
   * water node or no crop list throws a null reference, and otherwise every
   * crop of the list is filled in.
   */
  method FillInMissingValues(soil: Soil, interp: (real, seq<real>, seq<real>) -> real) returns (r: Result<()>)
    requires AnalysisCovered(soil.analysis)
    modifies soil.analysis, set c | c in Crops(soil)
    ensures soil.analysis.cl == ReplaceNaNIn(old(soil.analysis.cl), |soil.analysis.thickness|, 0.0)
    ensures soil.analysis.ec == ReplaceNaNIn(old(soil.analysis.ec), |soil.analysis.thickness|, 0.0)
    ensures soil.analysis.esp == ReplaceNaNIn(old(soil.analysis.esp), |soil.analysis.thickness|, 0.0)
    ensures soil.analysis.ph == ReplaceNaNIn(old(soil.analysis.ph), |soil.analysis.thickness|, 7.0)
    ensures r.Failure? <==> !HasCropList(soil)
    ensures r.Failure? ==> r.error == NullReference
    ensures forall c :: c in Crops(soil) ==> DefaultsOf(c) == Filled(old(DefaultsOf(c)), c.name, c.thickness, interp)
  {
    CheckAnalysisForMissingValues(soil.analysis);
    if !HasCropList(soil) {
      return Failure(NullReference);
    }
    FillInCrops(soil.water.value.crops.value, interp);
    return Success(());
  }
}
