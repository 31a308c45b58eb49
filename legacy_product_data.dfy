/** The earlier `build_product_data` (mockmaster-designer/mockmaster-designer.php), whose
    colour entries carry only a label and an image and which looks up no swatch. */
module LegacyProductData {
  import opened Wrappers
  import opened Assoc
  import opened Php
  import opened ProductData

  /** `array('label' => …, 'image' => …)`, with `label` as `title`. */
  datatype LegacyColor = LegacyColor(title: string, image: string)

  datatype LegacyData = LegacyData(colors: Table<LegacyColor>, variations: Table<Table<Size>>, sizes: Table<string>, defaultImage: string)

  function LegacyColorOf(defaultImage: string): Variation -> LegacyColor {
    v => LegacyColor(Label(v, ColorAttribute), v.imageSrc.GetOr(defaultImage))
  }

  const LegacyEmptyData := LegacyData([], [], [], "")

  function LegacyDefaultColors(defaultImage: string): Table<LegacyColor> {
    [("default", LegacyColor("Default", defaultImage))]
  }

  /** What the earlier `build_product_data` returns. */
  function LegacyBuildProductData(wp: Wp, product: Option<Product>): (d: LegacyData)
    ensures product.None? ==> d == LegacyEmptyData
    ensures product.Some? ==> d.defaultImage == wp.attachmentImageUrl(product.value.imageId, "large")
    ensures product.Some? && !product.value.isVariable ==>
      d.colors == LegacyDefaultColors(d.defaultImage) && d.variations == []
    ensures d.sizes == []
    ensures Distinct(d.colors)
  {
    match product
    case None => LegacyEmptyData
    case Some(p) =>
      var defaultImage := wp.attachmentImageUrl(p.imageId, "large");
      if p.isVariable then
        var vs := p.availableVariations;
        UpsertsDistinct(vs, HasColor(wp), ColorKey(wp), LegacyColorOf(defaultImage));
        LegacyData(Upserts(vs, HasColor(wp), ColorKey(wp), LegacyColorOf(defaultImage)),
                   NestedUpserts(vs, HasColorAndSize(wp), ColorKey(wp), SizeKey(wp), SizeOf),
                   [], defaultImage)
      else
        LegacyData(LegacyDefaultColors(defaultImage), [], [], defaultImage)
  }

  /** The earlier `build_product_data($product)`: the loop over the available variations. */
  method LegacyBuildProductDataLoop(wp: Wp, product: Option<Product>) returns (data: LegacyData)
    ensures data == LegacyBuildProductData(wp, product)
  {
    if product.None? {
      return LegacyEmptyData;
    }
    var p := product.value;
    var defaultImage := wp.attachmentImageUrl(p.imageId, "large");
    if !p.isVariable {
      return LegacyData(LegacyDefaultColors(defaultImage), [], [], defaultImage);
    }
    var vs := p.availableVariations;
    var colors: Table<LegacyColor> := [];
    var variations: Table<Table<Size>> := [];
    var i := 0;
    while i < |vs|
      invariant 0 <= i <= |vs|
      invariant colors == Upserts(vs[..i], HasColor(wp), ColorKey(wp), LegacyColorOf(defaultImage))
      invariant variations == NestedUpserts(vs[..i], HasColorAndSize(wp), ColorKey(wp), SizeKey(wp), SizeOf)
    {
      UpsertsStep(vs, HasColor(wp), ColorKey(wp), LegacyColorOf(defaultImage), i);
      NestedUpsertsStep(vs, HasColorAndSize(wp), ColorKey(wp), SizeKey(wp), SizeOf, i);
      var variation := vs[i];
      var color := Slug(wp, variation, ColorAttribute);
      var size := Slug(wp, variation, SizeAttribute);
      if StrTruthy(color) {
        colors := Put(colors, color, LegacyColor(Label(variation, ColorAttribute), variation.imageSrc.GetOr(defaultImage)));
      }
      if StrTruthy(color) && StrTruthy(size) {
        variations := Put(variations, color, Put(GetOr(variations, color, []), size, SizeOf(variation)));
      }
      i := i + 1;
    }
    assert vs[..i] == vs;
    data := LegacyData(colors, variations, [], defaultImage);
  }

  /** A newer colour entry without its swatch. */
  function DropSwatch(c: Color): LegacyColor {
    LegacyColor(c.title, c.image)
  }

  /** The newer revision only adds the `swatch` key: dropping it from every colour gives
      back the earlier revision's result, and everything else is the same. */
  lemma NewerAddsOnlySwatch(wp: Wp, product: Option<Product>)
    ensures LegacyBuildProductData(wp, product) ==
      var d := BuildProductData(wp, product);
      LegacyData(MapValues(d.colors, DropSwatch), d.variations, d.sizes, d.defaultImage)
  {
    if product.Some? {
      var p := product.value;
      var defaultImage := wp.attachmentImageUrl(p.imageId, "large");
      if p.isVariable {
        UpsertsMapValues(p.availableVariations, HasColor(wp), ColorKey(wp), ColorOf(wp, defaultImage),
                         DropSwatch, LegacyColorOf(defaultImage));
      } else {
        assert MapValues(DefaultColors(defaultImage), DropSwatch) == LegacyDefaultColors(defaultImage);
      }
    }
  }

  /** A colour is listed exactly when some variation has it (after sanitizing, and truthy). */
  lemma LegacyColorListed(wp: Wp, p: Product, k: string)
    requires p.isVariable
    ensures k in Keys(LegacyBuildProductData(wp, Some(p)).colors) <==>
      exists i :: 0 <= i < |p.availableVariations| && HasColor(wp)(p.availableVariations[i]) &&
        Slug(wp, p.availableVariations[i], ColorAttribute) == k
  {
    var vs := p.availableVariations;
    var colors := Upserts(vs, HasColor(wp), ColorKey(wp), LegacyColorOf(wp.attachmentImageUrl(p.imageId, "large")));
    assert LegacyBuildProductData(wp, Some(p)).colors == colors;
    UpsertsKeys(vs, HasColor(wp), ColorKey(wp), LegacyColorOf(wp.attachmentImageUrl(p.imageId, "large")));
    assert k in Keys(colors) <==> k in KeptKeys(vs, HasColor(wp), ColorKey(wp));
    KeptKeysMember(vs, HasColor(wp), ColorKey(wp), k);
    forall i ensures Writes(vs, HasColor(wp), ColorKey(wp), i, k) <==>
      0 <= i < |vs| && HasColor(wp)(vs[i]) && Slug(wp, vs[i], ColorAttribute) == k
    {
    }
  }

  /** A colour's entry comes from the last variation with that colour: its raw attribute
      as the label, its image or else the default image. */
  lemma LegacyColorFromLastVariation(wp: Wp, p: Product, i: nat)
    requires p.isVariable
    requires i < |p.availableVariations| && HasColor(wp)(p.availableVariations[i])
    requires forall j :: i < j < |p.availableVariations| ==>
      Slug(wp, p.availableVariations[j], ColorAttribute) != Slug(wp, p.availableVariations[i], ColorAttribute)
    ensures
      var v := p.availableVariations[i];
      Get(LegacyBuildProductData(wp, Some(p)).colors, Slug(wp, v, ColorAttribute)) ==
        Some(LegacyColor(Label(v, ColorAttribute), v.imageSrc.GetOr(wp.attachmentImageUrl(p.imageId, "large"))))
  {
    UpsertsLastWins(p.availableVariations, HasColor(wp), ColorKey(wp), LegacyColorOf(wp.attachmentImageUrl(p.imageId, "large")), i);
  }
}
