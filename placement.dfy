/** Placement sizes (assets/js/mockmaster-designer.js): the size table of the six print
    placements, the slider bounds derived from it, and the printed dimensions of a design.
    Sizes are inches and ratios are exact rationals. */
module Placement {
  import opened Wrappers

  /** A placement's `size` entry. `max`, `maxWidth` and `maxHeight` are optional in the code
      that reads the table; the shipped table has a `max` and neither of the others. */
  datatype SizeConfig = SizeConfig(min: real, max: Option<real>, default: real, maxWidth: Option<real>, maxHeight: Option<real>)

  function Entry(min: real, max: real, default: real): SizeConfig {
    SizeConfig(min, Some(max), default, None, None)
  }

  /** `getPlacementSizeConfig(placement)`: the size entry of a known placement. */
  function SizeConfigOf(placement: string): (c: Option<SizeConfig>)
    ensures c.Some? <==> placement in Placements
  {
    if placement == "left-chest" || placement == "right-chest" then Some(Entry(2.0, 6.0, 4.5))
    else if placement == "full-chest" || placement == "back" then Some(Entry(6.0, 12.0, 10.0))
    else if placement == "left-sleeve" || placement == "right-sleeve" then Some(Entry(1.0, 5.0, 3.0))
    else None
  }

  /** The placements the table knows, in table order. */
  const Placements: seq<string> := ["left-chest", "right-chest", "full-chest", "left-sleeve", "right-sleeve", "back"]

  /** `placementLabels[placement] || placement`. */
  function PlacementLabel(placement: string): (text: string)
    ensures placement !in Placements ==> text == placement
  {
    if placement == "left-chest" then "Left Chest"
    else if placement == "right-chest" then "Right Chest"
    else if placement == "full-chest" then "Full Chest"
    else if placement == "left-sleeve" then "Left Sleeve"
    else if placement == "right-sleeve" then "Right Sleeve"
    else if placement == "back" then "Back"
    else placement
  }

  function Max(a: real, b: real): real { if a >= b then a else b }
  function Min(a: real, b: real): real { if a <= b then a else b }

  /** A truthy optional number: present and not 0. */
  predicate TruthyNumber(x: Option<real>) {
    x.Some? && x.value != 0.0
  }

  /** `getDesignAspectRatio()`: the design's natural width over its natural height, or 1
      before an image with both dimensions has loaded. */
  function DesignAspect(naturalWidth: nat, naturalHeight: nat): (aspect: real)
    ensures aspect > 0.0
    ensures naturalWidth > 0 && naturalHeight > 0 ==> aspect * naturalHeight as real == naturalWidth as real
  {
    if naturalWidth > 0 && naturalHeight > 0 then naturalWidth as real / naturalHeight as real else 1.0
  }

  datatype Bounds = Bounds(min: real, max: real, default: real)

  /** `getPlacementSizeBounds(placement)` for a design of aspect ratio `aspect`. */
  function SizeBounds(placement: string, aspect: real): (b: Option<Bounds>)
    requires aspect > 0.0
    ensures b.Some? <==> placement in Placements
    ensures b.Some? ==> b.value.default == SizeConfigOf(placement).value.default
  {
    match SizeConfigOf(placement)
    case None => None
    case Some(c) =>
      var max := match c.max
        case Some(m) => m
        case None => if aspect >= 1.0 then c.maxWidth.GetOr(c.default) else c.maxHeight.GetOr(c.default);
      var min :=
        if c.min != 0.0 && aspect < 1.0 && c.min == 2.0 && TruthyNumber(c.maxWidth) && TruthyNumber(c.maxHeight)
        then Max(c.min / aspect, c.min)
        else c.min;
      Some(Bounds(min, max, c.default))
  }

  /** With the shipped table the aspect ratio never matters: the bounds are the entry's own
      minimum and maximum, and the default lies between them. */
  lemma ShippedBounds(placement: string, aspect: real)
    requires aspect > 0.0 && placement in Placements
    ensures var c := SizeConfigOf(placement).value;
      SizeBounds(placement, aspect) == Some(Bounds(c.min, c.max.value, c.default))
    ensures var b := SizeBounds(placement, aspect).value;
      0.0 < b.min <= b.default <= b.max
  {
  }

  /** `Math.min(hi, Math.max(lo, x))`. */
  function Clamp(lo: real, hi: real, x: real): (r: real)
    ensures lo <= hi ==> lo <= r <= hi
    ensures lo <= x <= hi ==> r == x
    ensures lo <= hi && x < lo ==> r == lo
    ensures lo <= hi && x > hi ==> r == hi
  {
    Min(hi, Max(lo, x))
  }

  /** A design's printed width and height. */
  datatype Dimensions = Dimensions(width: real, height: real)

  /** The numbers of `getPlacementDimensionsText(placement, sizeOverride)`: none (the `--`
      text) for an empty or unknown placement; otherwise the size used is the override, else
      the current size, else the default, and it goes to the longer side. */
  function PlacementDimensions(placement: string, sizeOverride: Option<real>, currentSize: Option<real>, aspect: real)
    : (d: Option<Dimensions>)
    requires aspect > 0.0
    ensures d.Some? <==> placement in Placements
    ensures d.Some? ==>
      var size := sizeOverride.GetOr(currentSize.GetOr(SizeConfigOf(placement).value.default));
      d.value.width == aspect * d.value.height &&
      (if aspect >= 1.0 then d.value.width == size else d.value.height == size)
  {
    if placement == "" then None
    else
      match SizeConfigOf(placement)
      case None => None
      case Some(c) =>
        var size := sizeOverride.GetOr(currentSize.GetOr(c.default));
        if aspect >= 1.0 then Some(Dimensions(size, size / aspect))
        else Some(Dimensions(size * aspect, size))
  }

  /** For a positive size, the chosen size is the longer side. */
  lemma LongerSideIsSize(placement: string, size: real, aspect: real)
    requires aspect > 0.0 && size > 0.0 && placement in Placements
    ensures var d := PlacementDimensions(placement, Some(size), None, aspect).value;
      Max(d.width, d.height) == size && Min(d.width, d.height) > 0.0
  {
    var d := PlacementDimensions(placement, Some(size), None, aspect).value;
    if aspect >= 1.0 {
      assert d.height * aspect == size;
      assert d.height * aspect >= d.height * 1.0;
    } else {
      assert d.width == aspect * size;
    }
  }
}
