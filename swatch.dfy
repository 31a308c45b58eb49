/** Colour swatch resolution (mockmaster-designer.php): `get_swatch_image_url` walks a
    fixed list of term-meta keys, then falls back to the Smart Swatches Pro option that
    `resolve_ssp_image_url` reads and `find_ssp_image` searches. */
module Swatch {
  import opened Wrappers
  import opened Php
  import opened Text
  import opened UrlMatch

  // ---------------------------------------------------------------- find_ssp_image

  /** A size for PHP values that every recursive search below decreases. */
  function Size(v: PhpValue): (n: nat)
    ensures n >= 1
  {
    match v
    case PArray(es) => 1 + EntriesSize(es)
    case PObject(ps) => 2 + EntriesSize(ps)
    case _ => 1
  }

  function EntrySize(e: Entry): (n: nat)
    ensures n == Size(e.value)
  {
    Size(e.value)
  }

  function EntriesSize(es: seq<Entry>): (n: nat)
    ensures n >= |es|
  {
    if es == [] then 0 else EntrySize(es[0]) + EntriesSize(es[1..])
  }

  /** `array_key_exists($key, $data) ? $data[$key] : none`: the value stored under `key`. */
  function Lookup(es: seq<Entry>, key: Key): (r: Option<PhpValue>)
    ensures r.Some? <==> exists i :: 0 <= i < |es| && es[i].key == key
    ensures r.Some? ==> exists i :: 0 <= i < |es| && es[i] == Entry(key, r.value)
    ensures r.Some? ==> Size(r.value) <= EntriesSize(es)
  {
    if es == [] then None
    else if es[0].key == key then Some(es[0].value)
    else
      var r := Lookup(es[1..], key);
      assert forall i :: 0 < i < |es| ==> es[i] == es[1..][i - 1];
      r
  }

  /** The keys `find_ssp_image` tries first, in order, before it looks at every value. */
  const PreferredKeys: seq<string> :=
    ["image", "image_url", "img", "url", "src", "swatch", "swatch_image", "attachment_id", "id"]

  /** `r` could have come out of `find_ssp_image`: an attachment URL WordPress returned,
      or a string that starts with `http://` or `https://`. */
  ghost predicate Plausible(wp: Wp, r: string) {
    r == "" || (StrTruthy(r) && ((exists n :: wp.attachmentUrl(n) == r) || StartsWithScheme(r)))
  }

  /** The string rules: the trimmed string itself when it starts with a scheme, otherwise
      the first URL embedded in it, otherwise nothing. */
  function FindInString(s: string): (r: string)
    ensures r == "" || (StrTruthy(r) && StartsWithScheme(r))
    ensures StartsWithScheme(Trim(s)) ==> r == Trim(s)
  {
    var t := Trim(s);
    if StartsWithScheme(t) then t
    else
      match EmbeddedUrl(t)
      case Some(u) =>
        assert StartsWithScheme(u) by {
          var i, j :| UrlMatchAt(t, i, j) && u == t[i..j];
          MatchStartsWithScheme(t, i, j);
        }
        u
      case None => ""
  }

  /** `find_ssp_image($data)`: the first usable image URL found in `data`, or "". Every
      result is "" or truthy (`Plausible`), so the source's `if ($found)` is `found != ""`. */
  function FindSspImage(wp: Wp, data: PhpValue): (r: string)
    ensures Plausible(wp, r)
    decreases Size(data), 0
  {
    var url := match NumericValue(wp, data) case Some(n) => wp.attachmentUrl(n) case None => "";
    if StrTruthy(url) then url
    else
      var fromString := if data.PStr? then FindInString(data.s) else "";
      if fromString != "" then fromString
      else
        match data
        case PArray(es) =>
          var preferred := FindPreferred(wp, es, PreferredKeys);
          if preferred != "" then preferred else FindInValues(wp, es)
        case PObject(ps) => FindSspImage(wp, PArray(ps))
        case _ => ""
  }

  /** The first loop of the array case: the preferred keys present, in the order of `keys`. */
  function FindPreferred(wp: Wp, es: seq<Entry>, keys: seq<string>): (r: string)
    ensures Plausible(wp, r)
    decreases EntriesSize(es), 1, |keys|
  {
    if keys == [] then ""
    else
      var found := match Lookup(es, StrKey(keys[0])) case Some(v) => FindSspImage(wp, v) case None => "";
      if found != "" then found else FindPreferred(wp, es, keys[1..])
  }

  /** The second loop of the array case: every value, in array order. */
  function FindInValues(wp: Wp, es: seq<Entry>): (r: string)
    ensures Plausible(wp, r)
    decreases EntriesSize(es), 1, 0
  {
    if es == [] then ""
    else
      var found := FindSspImage(wp, es[0].value);
      if found != "" then found else FindInValues(wp, es[1..])
  }

  /** The first non-empty string of `cs`, or "" when all are empty. */
  function FirstFound(cs: seq<string>): (r: string)
    ensures r == "" <==> forall i :: 0 <= i < |cs| ==> cs[i] == ""
    ensures r != "" ==> exists i ::
      0 <= i < |cs| && cs[i] == r && (forall j :: 0 <= j < i ==> cs[j] == "")
  {
    if cs == [] then ""
    else if cs[0] != "" then cs[0]
    else
      var r := FirstFound(cs[1..]);
      assert forall i :: 0 < i < |cs| ==> cs[i] == cs[1..][i - 1];
      r
  }

  /** The result of searching each preferred key that is present, in key order. */
  function PreferredResults(wp: Wp, es: seq<Entry>, keys: seq<string>): seq<string>
  {
    if keys == [] then []
    else
      match Lookup(es, StrKey(keys[0]))
      case Some(v) => [FindSspImage(wp, v)] + PreferredResults(wp, es, keys[1..])
      case None => PreferredResults(wp, es, keys[1..])
  }

  /** The result of searching each value of the array, in array order. */
  function ValueResults(wp: Wp, es: seq<Entry>): (rs: seq<string>)
    ensures |rs| == |es|
    ensures forall i :: 0 <= i < |es| ==> rs[i] == FindSspImage(wp, es[i].value)
  {
    if es == [] then [] else [FindSspImage(wp, es[0].value)] + ValueResults(wp, es[1..])
  }

  lemma {:induction false} FirstFoundAppend(a: seq<string>, b: seq<string>)
    ensures FirstFound(a + b) == if FirstFound(a) != "" then FirstFound(a) else FirstFound(b)
  {
    if a != [] {
      assert (a + b)[0] == a[0] && (a + b)[1..] == a[1..] + b;
      if a[0] == "" {
        FirstFoundAppend(a[1..], b);
        assert FirstFound(a + b) == FirstFound(a[1..] + b);
        assert FirstFound(a) == FirstFound(a[1..]);
      }
    } else {
      assert a + b == b;
    }
  }

  lemma {:induction false} FindPreferredIsFirst(wp: Wp, es: seq<Entry>, keys: seq<string>)
    ensures FindPreferred(wp, es, keys) == FirstFound(PreferredResults(wp, es, keys))
  {
    if keys != [] {
      FindPreferredIsFirst(wp, es, keys[1..]);
      match Lookup(es, StrKey(keys[0]))
      case Some(v) =>
        assert ([FindSspImage(wp, v)] + PreferredResults(wp, es, keys[1..]))[1..] == PreferredResults(wp, es, keys[1..]);
      case None =>
    }
  }

  lemma {:induction false} FindInValuesIsFirst(wp: Wp, es: seq<Entry>)
    ensures FindInValues(wp, es) == FirstFound(ValueResults(wp, es))
  {
    if es != [] {
      FindInValuesIsFirst(wp, es[1..]);
      assert ValueResults(wp, es)[1..] == ValueResults(wp, es[1..]);
    }
  }

  /** An array is searched key by key through the preferred keys present, then value by
      value, and the first non-empty result wins; the order of the preferred keys decides
      between two of them that both lead to an image. */
  lemma ArraySearchOrder(wp: Wp, es: seq<Entry>)
    ensures FindSspImage(wp, PArray(es)) ==
      FirstFound(PreferredResults(wp, es, PreferredKeys) + ValueResults(wp, es))
  {
    FindPreferredIsFirst(wp, es, PreferredKeys);
    FindInValuesIsFirst(wp, es);
    FirstFoundAppend(PreferredResults(wp, es, PreferredKeys), ValueResults(wp, es));
  }

  /** An object is searched exactly as the array of its properties. */
  lemma ObjectAsArray(wp: Wp, ps: seq<Entry>)
    ensures FindSspImage(wp, PObject(ps)) == FindSspImage(wp, PArray(ps))
  {
  }

  /** A numeric value (an integer, a float, or a numeric string) that names an attachment
      with a URL gives that URL, before any string rule is tried. */
  lemma NumericWithAttachment(wp: Wp, data: PhpValue)
    requires NumericValue(wp, data).Some?
    requires StrTruthy(wp.attachmentUrl(NumericValue(wp, data).value))
    ensures FindSspImage(wp, data) == wp.attachmentUrl(NumericValue(wp, data).value)
  {
  }

  /** A value that is neither a string, an array nor an object gives nothing unless it is
      numeric and names an attachment with a URL. */
  lemma ScalarWithoutAttachment(wp: Wp, data: PhpValue)
    requires data.PNull? || data.PBool? || data.PInt? || data.PFloat?
    requires NumericValue(wp, data).None? || !StrTruthy(wp.attachmentUrl(NumericValue(wp, data).value))
    ensures FindSspImage(wp, data) == ""
  {
  }

  /** A string that starts with a scheme once trimmed is the answer, when it does not
      name an attachment with a URL (it is not numeric, or its attachment has no URL). */
  lemma StringWithScheme(wp: Wp, s: string)
    requires StartsWithScheme(Trim(s))
    requires wp.numericString(s).None? || !StrTruthy(wp.attachmentUrl(wp.numericString(s).value))
    ensures FindSspImage(wp, PStr(s)) == Trim(s)
  {
  }

  /** A string that names no attachment with a URL, does not start with a scheme once
      trimmed and has no URL embedded in it gives nothing. (A bare `http://` does start
      with a scheme, and is returned as it is.) */
  lemma StringWithoutUrl(wp: Wp, s: string)
    requires !StartsWithScheme(Trim(s))
    requires forall i, j :: !UrlMatchAt(Trim(s), i, j)
    requires wp.numericString(s).None? || !StrTruthy(wp.attachmentUrl(wp.numericString(s).value))
    ensures FindSspImage(wp, PStr(s)) == ""
  {
  }

  /** A string that names no attachment with a URL and does not start with a scheme once
      trimmed gives the leftmost URL embedded in the trimmed string. */
  lemma StringWithEmbeddedUrl(wp: Wp, s: string, i: int, j: int)
    requires !StartsWithScheme(Trim(s))
    requires UrlMatchAt(Trim(s), i, j)
    requires forall i', j' :: i' < i ==> !UrlMatchAt(Trim(s), i', j')
    requires wp.numericString(s).None? || !StrTruthy(wp.attachmentUrl(wp.numericString(s).value))
    ensures FindSspImage(wp, PStr(s)) == Trim(s)[i..j]
  {
    EmbeddedUrlIsLeftmost(Trim(s), i, j);
    MatchStartsWithScheme(Trim(s), i, j);
  }

  // ---------------------------------------------------------------- resolve_ssp_image_url

  /** The term-meta key under which Smart Swatches Pro stores a colour's options. */
  const SspMetaKey := "ssp_attribute_options_pa_color"

  /** `resolve_ssp_image_url($term_id)`. */
  function ResolveSspImageUrl(wp: Wp, termId: int): (r: string)
    ensures !Truthy(wp.termMeta(termId, SspMetaKey)) ==> r == ""
    ensures Truthy(wp.termMeta(termId, SspMetaKey)) ==>
      r == FindSspImage(wp, SspData(wp, wp.termMeta(termId, SspMetaKey)))
    ensures Plausible(wp, r)
  {
    var raw := wp.termMeta(termId, SspMetaKey);
    if !Truthy(raw) then "" else FindSspImage(wp, SspData(wp, raw))
  }

  /** The data searched: a string is replaced by what `maybe_unserialize` makes of it when
      that differs from the string. */
  function SspData(wp: Wp, raw: PhpValue): (data: PhpValue)
    ensures !raw.PStr? ==> data == raw
    ensures raw.PStr? ==> data == wp.maybeUnserialize(raw.s)
  {
    match raw
    case PStr(s) =>
      var maybe := wp.maybeUnserialize(s);
      if maybe != raw then maybe else raw
    case _ => raw
  }

  // ---------------------------------------------------------------- get_swatch_image_url

  /** The term-meta keys that may hold a swatch image, in the order they are tried. */
  const MetaKeys: seq<string> :=
    ["swatch_image", "swatch_image_id", "product_attribute_swatch", "product_attribute_image",
     "attribute_image", "thumbnail_id"]

  /** `wp_get_attachment_image_url((int) $value, 'thumbnail')` for a numeric value, "" for any other. */
  function Thumbnail(wp: Wp, value: PhpValue): string {
    match NumericValue(wp, value) case Some(n) => wp.attachmentImageUrl(n, "thumbnail") case None => ""
  }

  /** The image one meta key yields: the thumbnail of the attachment a numeric value names,
      else a string value that is a valid URL; nothing for a falsy value. */
  function MetaImage(wp: Wp, termId: int, key: string): (r: Option<string>)
    ensures r.Some? ==> StrTruthy(r.value)
    ensures r.Some? ==>
      (exists n :: wp.attachmentImageUrl(n, "thumbnail") == r.value) ||
      (wp.termMeta(termId, key) == PStr(r.value) && wp.isValidUrl(r.value))
    ensures var v := wp.termMeta(termId, key);
      Truthy(v) && StrTruthy(Thumbnail(wp, v)) ==> r == Some(Thumbnail(wp, v))
    ensures var v := wp.termMeta(termId, key);
      Truthy(v) && !StrTruthy(Thumbnail(wp, v)) && v.PStr? && wp.isValidUrl(v.s) ==> r == Some(v.s)
    ensures var v := wp.termMeta(termId, key);
      r.None? <==> !Truthy(v) || (!StrTruthy(Thumbnail(wp, v)) && !(v.PStr? && wp.isValidUrl(v.s)))
  {
    var value := wp.termMeta(termId, key);
    if !Truthy(value) then None
    else
      var image := Thumbnail(wp, value);
      if StrTruthy(image) then Some(image)
      else if value.PStr? && wp.isValidUrl(value.s) then Some(value.s)
      else None
  }

  /** The image of the first key of `keys` that yields one. */
  function FirstMetaImage(wp: Wp, termId: int, keys: seq<string>): (r: Option<string>)
    ensures r.None? <==> forall i :: 0 <= i < |keys| ==> MetaImage(wp, termId, keys[i]).None?
    ensures r.Some? ==> exists i ::
      0 <= i < |keys| && MetaImage(wp, termId, keys[i]) == r &&
      (forall j :: 0 <= j < i ==> MetaImage(wp, termId, keys[j]).None?)
  {
    if keys == [] then None
    else if MetaImage(wp, termId, keys[0]).Some? then MetaImage(wp, termId, keys[0])
    else
      var r := FirstMetaImage(wp, termId, keys[1..]);
      assert forall i :: 0 < i < |keys| ==> keys[i] == keys[1..][i - 1];
      r
  }

  /** From position `i` on, the first image is that of key `i`, or else the first one after it. */
  lemma FirstMetaImageStep(wp: Wp, termId: int, keys: seq<string>, i: nat)
    requires i < |keys|
    ensures FirstMetaImage(wp, termId, keys[i..]) ==
      if MetaImage(wp, termId, keys[i]).Some? then MetaImage(wp, termId, keys[i]) else FirstMetaImage(wp, termId, keys[i + 1..])
  {
    assert keys[i..][0] == keys[i];
    assert keys[i..][1..] == keys[i + 1..];
  }

  /** What `get_swatch_image_url($slug)` returns. */
  function SwatchImageUrl(wp: Wp, slug: string): (r: string)
    ensures !wp.colorTaxonomyExists || wp.termBySlug(slug).None? ==> r == ""
    ensures Plausible(wp, r) || FirstMetaImage(wp, wp.termBySlug(slug).value, MetaKeys) == Some(r)
    ensures r == "" || StrTruthy(r)
  {
    if !wp.colorTaxonomyExists then ""
    else
      match wp.termBySlug(slug)
      case None => ""
      case Some(termId) =>
        match FirstMetaImage(wp, termId, MetaKeys)
        case Some(url) => url
        case None => ResolveSspImageUrl(wp, termId)
  }

  /** `get_swatch_image_url($color_slug)`: the loop over the meta keys. */
  method GetSwatchImageUrl(wp: Wp, slug: string) returns (url: string)
    ensures url == SwatchImageUrl(wp, slug)
  {
    if !wp.colorTaxonomyExists {
      return "";
    }
    var term := wp.termBySlug(slug);
    if term.None? {
      return "";
    }
    var termId := term.value;
    var i := 0;
    while i < |MetaKeys|
      invariant 0 <= i <= |MetaKeys|
      invariant FirstMetaImage(wp, termId, MetaKeys) == FirstMetaImage(wp, termId, MetaKeys[i..])
    {
      var value := wp.termMeta(termId, MetaKeys[i]);
      FirstMetaImageStep(wp, termId, MetaKeys, i);
      if Truthy(value) {
        var n := NumericValue(wp, value);
        if n.Some? {
          var imageUrl := wp.attachmentImageUrl(n.value, "thumbnail");
          assert imageUrl == Thumbnail(wp, value);
          if StrTruthy(imageUrl) {
            assert MetaImage(wp, termId, MetaKeys[i]) == Some(imageUrl);
            return imageUrl;
          }
        }
        if value.PStr? && wp.isValidUrl(value.s) {
          assert MetaImage(wp, termId, MetaKeys[i]) == Some(value.s);
          return value.s;
        }
      }
      assert MetaImage(wp, termId, MetaKeys[i]).None?;
      i := i + 1;
    }
    assert MetaKeys[i..] == [];
    url := ResolveSspImageUrl(wp, termId);
  }

  /** The first meta key that yields an image decides, whatever the later keys and the
      Smart Swatches Pro option hold. */
  lemma SwatchFirstHit(wp: Wp, slug: string, k: nat)
    requires wp.colorTaxonomyExists && wp.termBySlug(slug).Some?
    requires k < |MetaKeys|
    requires MetaImage(wp, wp.termBySlug(slug).value, MetaKeys[k]).Some?
    requires forall j :: 0 <= j < k ==> MetaImage(wp, wp.termBySlug(slug).value, MetaKeys[j]).None?
    ensures SwatchImageUrl(wp, slug) == MetaImage(wp, wp.termBySlug(slug).value, MetaKeys[k]).value
  {
  }

  /** With no meta key yielding an image, the Smart Swatches Pro option decides. */
  lemma SwatchFallback(wp: Wp, slug: string)
    requires wp.colorTaxonomyExists && wp.termBySlug(slug).Some?
    requires forall j :: 0 <= j < |MetaKeys| ==> MetaImage(wp, wp.termBySlug(slug).value, MetaKeys[j]).None?
    ensures SwatchImageUrl(wp, slug) == ResolveSspImageUrl(wp, wp.termBySlug(slug).value)
  {
  }

  // ---------------------------------------------------------------- get_preview_product_id

  /** `get_preview_product_id()`: `absint` of the `preview_product_id` query parameter, or
      0 when it is absent; `intval` is PHP's `(int)` on the parameter's string. */
  function PreviewProductId(query: Option<string>, intval: string -> int): (id: nat)
    ensures query.None? ==> id == 0
    ensures query.Some? ==> id == intval(query.value) || id == -intval(query.value)
  {
    match query
    case None => 0
    case Some(s) => var n := intval(s); if n < 0 then -n else n
  }
}
