/**
 * The soil records the soil utilities read: a soil with its water
 * characterisation, its crops and its chemical analysis. Only the fields the
 * utilities use are kept.
 */
module SoilData {
  import opened Wrappers

  /** A double that may be NaN, for the arrays in which the utilities test `double.IsNaN`. */
  datatype Double = NaN | Num(value: real)

  /** `MathUtilities.MissingValue`, the marker of a layer value that was never measured. */
  const MissingValue: real := 999999.0

  /**
   * A crop's root-zone parameters. The name, layers and lower limit are never
   * changed by the utilities; XF, its metadata and KL are filled in by the
   * defaults.
   */
  class SoilCrop {
    const name: string
    const thickness: seq<real>
    const ll: Option<seq<real>>
    var xf: Option<seq<real>>
    var xfMetadata: Option<seq<string>>
    var kl: Option<seq<real>>

    constructor (name: string, thickness: seq<real>, ll: Option<seq<real>>, xf: Option<seq<real>>, kl: Option<seq<real>>)
      ensures this.name == name && this.thickness == thickness && this.ll == ll
      ensures this.xf == xf && this.xfMetadata == None && this.kl == kl
    {
      this.name := name;
      this.thickness := thickness;
      this.ll := ll;
      this.xf := xf;
      this.xfMetadata := None;
      this.kl := kl;
    }
  }

  /** The chemical analysis of a soil; the four arrays may hold NaN for unmeasured layers. */
  class Analysis {
    const thickness: seq<real>
    var cl: Option<seq<Double>>
    var ec: Option<seq<Double>>
    var esp: Option<seq<Double>>
    var ph: Option<seq<Double>>

    constructor (thickness: seq<real>, cl: Option<seq<Double>>, ec: Option<seq<Double>>, esp: Option<seq<Double>>, ph: Option<seq<Double>>)
      ensures this.thickness == thickness && this.cl == cl && this.ec == ec
      ensures this.esp == esp && this.ph == ph
    {
      this.thickness := thickness;
      this.cl := cl;
      this.ec := ec;
      this.esp := esp;
      this.ph := ph;
    }
  }

  /** The water characterisation: layer thicknesses (mm), bulk density, LL15 and DUL, and the crop list. */
  datatype Water = Water(thickness: seq<real>, bd: seq<real>, ll15: seq<real>, dul: seq<real>, crops: Option<seq<SoilCrop>>)

  /** A soil: its classification, water characterisation and analysis. */
  datatype Soil = Soil(soilType: Option<string>, water: Option<Water>, analysis: Analysis)

  /** True when the soil has a water node with a crop list (the utilities' null checks). */
  predicate HasCropList(soil: Soil)
  {
    soil.water.Some? && soil.water.value.crops.Some?
  }

  /** The crop list, empty when there is none. */
  function Crops(soil: Soil): (r: seq<SoilCrop>)
    ensures !HasCropList(soil) ==> r == []
  {
    if HasCropList(soil) then soil.water.value.crops.value else []
  }
}
