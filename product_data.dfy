/** `build_product_data($product)` (mockmaster-designer.php): the colours, per-colour sizes
    and default image the designer script receives for the preview product. */
module ProductData {
  import opened Wrappers
  import opened Assoc
  import opened Php
  import opened Swatch

  /** One entry of `get_available_variations()`: its attribute array, `['image']['src']`
      (None when unset or null) and `['max_qty']` (None when unset or null). */
  datatype Variation = Variation(attributes: Table<string>, imageSrc: Option<string>, maxQty: Option<PhpValue>)

  /** A `WC_Product`: its image attachment id, whether `is_type('variable')` holds, and
      its available variations. */
  datatype Product = Product(imageId: int, isVariable: bool, availableVariations: seq<Variation>)

  /** `array('label' => …, 'image' => …, 'swatch' => …)`, with `label` as `title`; the entry for a product without
      variations has no `swatch` key, which is None here. */
  datatype Color = Color(title: string, image: string, swatch: Option<string>)

  /** `array('label' => …, 'stock' => …)`, with `label` as `title`. */
  datatype Size = Size(title: string, stock: PhpValue)

  /** The returned array. `variations[$color]` is the inner `sizes` array of the colour's
      record (that record has no other key). `sizes` is never written. */
  datatype Data = Data(colors: Table<Color>, variations: Table<Table<Size>>, sizes: Table<string>, defaultImage: string)

  const ColorAttribute := "attribute_pa_color"
  const SizeAttribute := "attribute_pa_size"

  /** `isset($attributes[$name]) ? wc_sanitize_taxonomy_name($attributes[$name]) : ''`. */
  function Slug(wp: Wp, v: Variation, name: string): string {
    match Get(v.attributes, name)
    case Some(raw) => wp.sanitizeTaxonomyName(raw)
    case None => ""
  }

  /** The unsanitized attribute, the label PHP stores. */
  function Label(v: Variation, name: string): string {
    GetOr(v.attributes, name, "")
  }

  function ColorKey(wp: Wp): Variation -> string {
    v => Slug(wp, v, ColorAttribute)
  }

  function SizeKey(wp: Wp): Variation -> string {
    v => Slug(wp, v, SizeAttribute)
  }

  /** `if ($color)`. */
  function HasColor(wp: Wp): Variation -> bool {
    v => StrTruthy(Slug(wp, v, ColorAttribute))
  }

  /** `if ($color && $size)`. */
  function HasColorAndSize(wp: Wp): Variation -> bool {
    v => StrTruthy(Slug(wp, v, ColorAttribute)) && StrTruthy(Slug(wp, v, SizeAttribute))
  }

  /** The colour entry a variation writes. */
  function ColorOf(wp: Wp, defaultImage: string): Variation -> Color {
    v => Color(Label(v, ColorAttribute), v.imageSrc.GetOr(defaultImage),
               Some(SwatchImageUrl(wp, Slug(wp, v, ColorAttribute))))
  }

  /** The size entry a variation writes; `max_qty ?? 0`. */
  function SizeOf(v: Variation): Size {
    Size(Label(v, SizeAttribute), v.maxQty.GetOr(PInt(0)))
  }

  const EmptyData := Data([], [], [], "")

  /** The single colour of a product without variations. */
  function DefaultColors(defaultImage: string): Table<Color> {
    [("default", Color("Default", defaultImage, None))]
  }

  /** What `build_product_data` returns: for a variable product, each variation with a
      colour writes its colour entry, and each with a colour and a size writes its size
      under its colour, in the order of the variations. */
  function BuildProductData(wp: Wp, product: Option<Product>): (d: Data)
    ensures product.None? ==> d == EmptyData
    ensures product.Some? ==> d.defaultImage == wp.attachmentImageUrl(product.value.imageId, "large")
    ensures product.Some? && !product.value.isVariable ==>
      d.colors == DefaultColors(d.defaultImage) && d.variations == []
    ensures d.sizes == []
    ensures Distinct(d.colors)
  {
    match product
    case None => EmptyData
    case Some(p) =>
      var defaultImage := wp.attachmentImageUrl(p.imageId, "large");
      if p.isVariable then
        var vs := p.availableVariations;
        UpsertsDistinct(vs, HasColor(wp), ColorKey(wp), ColorOf(wp, defaultImage));
        Data(Upserts(vs, HasColor(wp), ColorKey(wp), ColorOf(wp, defaultImage)),
             NestedUpserts(vs, HasColorAndSize(wp), ColorKey(wp), SizeKey(wp), SizeOf),
             [], defaultImage)
      else
        Data(DefaultColors(defaultImage), [], [], defaultImage)
  }

  /** `build_product_data($product)`: the loop over the available variations. */
  method BuildProductDataLoop(wp: Wp, product: Option<Product>) returns (data: Data)
    ensures data == BuildProductData(wp, product)
  {
    if product.None? {
      return EmptyData;
    }
    var p := product.value;
    var defaultImage := wp.attachmentImageUrl(p.imageId, "large");
    if !p.isVariable {
      return Data(DefaultColors(defaultImage), [], [], defaultImage);
    }
    var vs := p.availableVariations;
    var colors: Table<Color> := [];
    var variations: Table<Table<Size>> := [];
    var i := 0;
    while i < |vs|
      invariant 0 <= i <= |vs|
      invariant colors == Upserts(vs[..i], HasColor(wp), ColorKey(wp), ColorOf(wp, defaultImage))
      invariant variations == NestedUpserts(vs[..i], HasColorAndSize(wp), ColorKey(wp), SizeKey(wp), SizeOf)
    {
      UpsertsStep(vs, HasColor(wp), ColorKey(wp), ColorOf(wp, defaultImage), i);
      NestedUpsertsStep(vs, HasColorAndSize(wp), ColorKey(wp), SizeKey(wp), SizeOf, i);
      var variation := vs[i];
      var color := Slug(wp, variation, ColorAttribute);
      var size := Slug(wp, variation, SizeAttribute);
      if StrTruthy(color) {
        var swatch := GetSwatchImageUrl(wp, color);
        colors := Put(colors, color, Color(Label(variation, ColorAttribute), variation.imageSrc.GetOr(defaultImage), Some(swatch)));
      }
      if StrTruthy(color) && StrTruthy(size) {
        variations := Put(variations, color, Put(GetOr(variations, color, []), size, SizeOf(variation)));
      }
      i := i + 1;
    }
    assert vs[..i] == vs;
    data := Data(colors, variations, [], defaultImage);
  }

  // ---------------------------------------------------------------- properties

  /** A colour is listed exactly when some variation has it (after sanitizing, and truthy). */
  lemma ColorListed(wp: Wp, p: Product, k: string)
    requires p.isVariable
    ensures k in Keys(BuildProductData(wp, Some(p)).colors) <==>
      exists i :: 0 <= i < |p.availableVariations| && HasColor(wp)(p.availableVariations[i]) &&
        Slug(wp, p.availableVariations[i], ColorAttribute) == k
  {
    var vs := p.availableVariations;
    var colors := Upserts(vs, HasColor(wp), ColorKey(wp), ColorOf(wp, wp.attachmentImageUrl(p.imageId, "large")));
    assert BuildProductData(wp, Some(p)).colors == colors;
    var ks := KeptKeys(vs, HasColor(wp), ColorKey(wp));
    UpsertsKeys(vs, HasColor(wp), ColorKey(wp), ColorOf(wp, wp.attachmentImageUrl(p.imageId, "large")));
    assert k in Keys(colors) <==> k in ks;
    KeptKeysMember(vs, HasColor(wp), ColorKey(wp), k);
    forall i ensures Writes(vs, HasColor(wp), ColorKey(wp), i, k) <==>
      0 <= i < |vs| && HasColor(wp)(vs[i]) && Slug(wp, vs[i], ColorAttribute) == k
    {
    }
  }

  /** The colours are listed in the order in which their slugs first occur among the
      variations with a colour: a later variation overwrites an entry where it stands. */
  lemma ColorOrder(wp: Wp, p: Product)
    requires p.isVariable
    ensures Keys(BuildProductData(wp, Some(p)).colors) ==
      FirstOccurrences(KeptKeys(p.availableVariations, HasColor(wp), ColorKey(wp)))
  {
    UpsertsKeys(p.availableVariations, HasColor(wp), ColorKey(wp), ColorOf(wp, wp.attachmentImageUrl(p.imageId, "large")));
  }

  /** The first listed colour, the one the designer starts on, is the colour of the first
      variation that has one. */
  lemma FirstColor(wp: Wp, p: Product, i: nat)
    requires p.isVariable
    requires i < |p.availableVariations| && HasColor(wp)(p.availableVariations[i])
    requires forall j :: 0 <= j < i ==> !HasColor(wp)(p.availableVariations[j])
    ensures Keys(BuildProductData(wp, Some(p)).colors) != []
    ensures Keys(BuildProductData(wp, Some(p)).colors)[0] == Slug(wp, p.availableVariations[i], ColorAttribute)
  {
    ColorOrder(wp, p);
    KeptKeysFirst(p.availableVariations, HasColor(wp), ColorKey(wp), i);
    FirstOccurrencesHead(KeptKeys(p.availableVariations, HasColor(wp), ColorKey(wp)));
  }

  /** A colour's entry comes from the last variation with that colour. */
  lemma ColorFromLastVariation(wp: Wp, p: Product, i: nat)
    requires p.isVariable
    requires i < |p.availableVariations| && HasColor(wp)(p.availableVariations[i])
    requires forall j :: i < j < |p.availableVariations| ==>
      Slug(wp, p.availableVariations[j], ColorAttribute) != Slug(wp, p.availableVariations[i], ColorAttribute)
    ensures
      var v := p.availableVariations[i];
      var slug := Slug(wp, v, ColorAttribute);
      Get(BuildProductData(wp, Some(p)).colors, slug) ==
        Some(Color(Label(v, ColorAttribute), v.imageSrc.GetOr(wp.attachmentImageUrl(p.imageId, "large")),
                   Some(SwatchImageUrl(wp, slug))))
  {
    var vs := p.availableVariations;
    UpsertsLastWins(vs, HasColor(wp), ColorKey(wp), ColorOf(wp, wp.attachmentImageUrl(p.imageId, "large")), i);
  }

  /** A (colour, size) pair's entry comes from the last variation with that colour and size;
      a missing `max_qty` gives stock 0. */
  lemma SizeFromLastVariation(wp: Wp, p: Product, i: nat)
    requires p.isVariable
    requires i < |p.availableVariations| && HasColorAndSize(wp)(p.availableVariations[i])
    requires forall j :: i < j < |p.availableVariations| ==>
      Slug(wp, p.availableVariations[j], ColorAttribute) != Slug(wp, p.availableVariations[i], ColorAttribute) ||
      Slug(wp, p.availableVariations[j], SizeAttribute) != Slug(wp, p.availableVariations[i], SizeAttribute)
    ensures
      var v := p.availableVariations[i];
      var sizes := GetOr(BuildProductData(wp, Some(p)).variations, Slug(wp, v, ColorAttribute), []);
      Get(sizes, Slug(wp, v, SizeAttribute)) == Some(Size(Label(v, SizeAttribute), v.maxQty.GetOr(PInt(0))))
  {
    var vs := p.availableVariations;
    var c := Slug(wp, vs[i], ColorAttribute);
    var under := Under(HasColorAndSize(wp), ColorKey(wp), c);
    NestedUpsertsSlice(vs, HasColorAndSize(wp), ColorKey(wp), SizeKey(wp), SizeOf, c);
    UpsertsLastWins(vs, under, SizeKey(wp), SizeOf, i);
  }

  /** Every colour that has sizes is also a listed colour. */
  lemma SizedColorsAreListed(wp: Wp, product: Option<Product>, k: string)
    requires k in Keys(BuildProductData(wp, product).variations)
    ensures k in Keys(BuildProductData(wp, product).colors)
  {
    var p := product.value;
    var vs := p.availableVariations;
    var defaultImage := wp.attachmentImageUrl(p.imageId, "large");
    NestedUpsertsKeys(vs, HasColorAndSize(wp), ColorKey(wp), SizeKey(wp), SizeOf);
    KeptKeysMember(vs, HasColorAndSize(wp), ColorKey(wp), k);
    var i :| Writes(vs, HasColorAndSize(wp), ColorKey(wp), i, k);
    assert Writes(vs, HasColor(wp), ColorKey(wp), i, k);
    ColorListed(wp, p, k);
  }

  /** A size is listed under a colour exactly when some variation has both that colour and
      that size (after sanitizing, both truthy). */
  lemma SizeListed(wp: Wp, p: Product, c: string, sz: string)
    requires p.isVariable
    ensures sz in Keys(GetOr(BuildProductData(wp, Some(p)).variations, c, [])) <==>
      exists i :: 0 <= i < |p.availableVariations| && HasColorAndSize(wp)(p.availableVariations[i]) &&
        Slug(wp, p.availableVariations[i], ColorAttribute) == c && Slug(wp, p.availableVariations[i], SizeAttribute) == sz
  {
    var vs := p.availableVariations;
    var under := Under(HasColorAndSize(wp), ColorKey(wp), c);
    NestedUpsertsSlice(vs, HasColorAndSize(wp), ColorKey(wp), SizeKey(wp), SizeOf, c);
    var sizes := Upserts(vs, under, SizeKey(wp), SizeOf);
    UpsertsKeys(vs, under, SizeKey(wp), SizeOf);
    assert sz in Keys(sizes) <==> sz in KeptKeys(vs, under, SizeKey(wp));
    KeptKeysMember(vs, under, SizeKey(wp), sz);
    forall i ensures Writes(vs, under, SizeKey(wp), i, sz) <==>
      0 <= i < |vs| && HasColorAndSize(wp)(vs[i]) && Slug(wp, vs[i], ColorAttribute) == c && Slug(wp, vs[i], SizeAttribute) == sz
    {
    }
  }
}
