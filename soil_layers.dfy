/**
 * Layer arithmetic: the depth of the bottom of each layer (cumulative
 * thickness) and the depth of each layer's centre.
 */
module SoilLayers {

  /** The sum of `s`. */
  function Sum(s: seq<real>): real
  {
    if s == [] then 0.0 else Sum(s[..|s| - 1]) + s[|s| - 1]
  }

  /** Element-wise product (`MathUtilities.Multiply`). */
  function Multiply(a: seq<real>, b: seq<real>): (r: seq<real>)
    requires |a| == |b|
    ensures |r| == |a| && forall i :: 0 <= i < |a| ==> r[i] == a[i] * b[i]
  {
    seq(|a|, i requires 0 <= i < |a| => a[i] * b[i])
  }

  /** The sum taken from the front: the first element plus the sum of the rest. */
  lemma {:induction false} SumHead(s: seq<real>)
    requires s != []
    ensures Sum(s) == s[0] + Sum(s[1..])
  {
    if |s| > 1 {
      assert s[1..][..|s[1..]| - 1] == s[..|s| - 1][1..];
      SumHead(s[..|s| - 1]);
    }
  }

  /** A sum of non-negative values is non-negative. */
  lemma {:induction false} SumNonNegative(s: seq<real>)
    requires forall i :: 0 <= i < |s| ==> s[i] >= 0.0
    ensures Sum(s) >= 0.0
  {
    if s != [] {
      SumNonNegative(s[..|s| - 1]);
    }
  }

  /** Extending a prefix by one element adds that element to its sum. */
  lemma SumPrefixStep(s: seq<real>, i: nat)
    requires i < |s|
    ensures Sum(s[..i + 1]) == Sum(s[..i]) + s[i]
  {
    assert s[..i + 1][..i] == s[..i];
  }

  /** The prefix sums of non-negative thicknesses never decrease. */
  lemma {:induction false} SumPrefixMonotone(s: seq<real>, i: nat, j: nat)
    requires i <= j <= |s|
    requires forall k :: 0 <= k < |s| ==> s[k] >= 0.0
    ensures Sum(s[..i]) <= Sum(s[..j])
    decreases j - i
  {
    if i < j {
      SumPrefixStep(s, j - 1);
      SumPrefixMonotone(s, i, j - 1);
    }
  }

  /** The depth of the bottom of every layer: the prefix sums of the thicknesses. */
  function CumThickness(t: seq<real>): (r: seq<real>)
    ensures |r| == |t|
    ensures forall i :: 0 <= i < |t| ==> r[i] == Sum(t[..i + 1])
  {
    if t == [] then []
    else
      var init := t[..|t| - 1];
      assert t[..|t|] == t;
      assert forall i :: 0 <= i < |init| ==> CumThickness(init)[i] == Sum(t[..i + 1]) by {
        forall i | 0 <= i < |init|
          ensures CumThickness(init)[i] == Sum(t[..i + 1])
        {
          assert init[..i + 1] == t[..i + 1];
        }
      }
      CumThickness(init) + [Sum(t)]
  }

  /** The first bottom is the first thickness, and each later bottom adds its layer's thickness. */
  lemma CumThicknessRecurrence(t: seq<real>)
    ensures t != [] ==> CumThickness(t)[0] == t[0]
    ensures forall i :: 0 < i < |t| ==> CumThickness(t)[i] == CumThickness(t)[i - 1] + t[i]
  {
    var r := CumThickness(t);
    if t != [] {
      assert t[..1] == [t[0]];
      assert Sum([t[0]]) == Sum([t[0]][..0]) + t[0];
    }
    forall i | 0 < i < |t|
      ensures r[i] == r[i - 1] + t[i]
    {
      SumPrefixStep(t, i);
    }
  }

  /** With positive thicknesses the layer bottoms are strictly increasing and each lies one thickness below its top. */
  lemma CumThicknessIncreasing(t: seq<real>)
    requires forall i :: 0 <= i < |t| ==> t[i] > 0.0
    ensures forall i, j :: 0 <= i < j < |t| ==> CumThickness(t)[i] < CumThickness(t)[j]
    ensures t != [] ==> CumThickness(t)[0] > 0.0
  {
    var r := CumThickness(t);
    CumThicknessRecurrence(t);
    forall i, j | 0 <= i < j < |t|
      ensures r[i] < r[j]
    {
      SumPrefixStep(t, j);
      SumPrefixMonotone(t, i + 1, j);
    }
  }

  /** `ToCumThickness`: fills a fresh array with the running total of the thicknesses. */
  method ToCumThickness(t: seq<real>) returns (cum: seq<real>)
    ensures cum == CumThickness(t)
    ensures |cum| == |t|
    ensures t != [] ==> cum[0] == t[0]
    ensures forall i :: 0 < i < |t| ==> cum[i] == cum[i - 1] + t[i]
  {
    var a := new real[|t|];
    if |t| > 0 {
      a[0] := t[0];
      assert t[..1] == [t[0]];
      assert Sum([t[0]]) == Sum([t[0]][..0]) + t[0];
      var layer := 1;
      while layer != |t|
        invariant 1 <= layer <= |t|
        invariant forall i :: 0 <= i < layer ==> a[i] == Sum(t[..i + 1])
      {
        SumPrefixStep(t, layer);
        a[layer] := t[layer] + a[layer - 1];
        layer := layer + 1;
      }
    }
    cum := a[..];
    CumThicknessRecurrence(t);
  }

  /** The depth of the centre of every layer. */
  function MidPoints(t: seq<real>): (r: seq<real>)
    ensures |r| == |t|
    ensures forall i :: 0 <= i < |t| ==> r[i] == CumThickness(t)[i] - t[i] / 2.0
  {
    var cum := CumThickness(t);
    CumThicknessRecurrence(t);
    seq(|t|, i requires 0 <= i < |t| => if i == 0 then cum[0] / 2.0 else (cum[i] + cum[i - 1]) / 2.0)
  }

  /** With positive thicknesses every mid-point lies strictly inside its layer and the mid-points increase. */
  lemma MidPointsInsideLayers(t: seq<real>)
    requires forall i :: 0 <= i < |t| ==> t[i] > 0.0
    ensures forall i :: 0 <= i < |t| ==> CumThickness(t)[i] - t[i] < MidPoints(t)[i] < CumThickness(t)[i]
    ensures forall i :: 0 < i < |t| ==> MidPoints(t)[i - 1] < MidPoints(t)[i]
  {
    CumThicknessRecurrence(t);
    CumThicknessIncreasing(t);
  }

  /** `ToMidPoints`: the average of each layer's top and bottom depth. */
  method ToMidPoints(t: seq<real>) returns (mid: seq<real>)
    ensures mid == MidPoints(t)
  {
    var cum := ToCumThickness(t);
    var a := new real[|cum|];
    var layer := 0;
    while layer != |cum|
      invariant 0 <= layer <= |cum|
      invariant forall i :: 0 <= i < layer ==> a[i] == MidPoints(t)[i]
    {
      if layer == 0 {
        a[layer] := cum[layer] / 2.0;
      } else {
        a[layer] := (cum[layer] + cum[layer - 1]) / 2.0;
      }
      layer := layer + 1;
    }
    mid := a[..];
  }
}
