/** Product views (assets/js/mockmaster-designer.js): the mockup-file naming convention that
    turns a front image URL into the other views' URLs, the view a placement shows, and the
    image the stage shows for a view. Views and placements are the strings the page's
    `data-view` and `data-placement` attributes carry. */
module Views {
  import opened Wrappers
  import opened Text

  // ---------------------------------------------------------------- deriveViewUrls

  /** `jpg|jpeg|png`, compared case-insensitively. */
  predicate IsImageExtension(ext: string) {
    EqualsIgnoreCase(ext, "jpg") || EqualsIgnoreCase(ext, "jpeg") || EqualsIgnoreCase(ext, "png")
  }

  /** `url` is `base`, then `_f_fm.` in any case, then the extension `ext`: a match of
      `/_f_fm\.(jpg|jpeg|png)$/i` with `ext` as its group. */
  ghost predicate SplitsAt(url: string, base: string, ext: string) {
    |base| + 6 + |ext| == |url| && url[..|base|] == base && url[|base| + 6..] == ext &&
    AtIgnoreCase(url, |base|, "_f_fm.") && IsImageExtension(ext)
  }

  datatype ViewUrls = ViewUrls(front: string, back: string, leftPrimary: string, leftFallback: string)

  /** The URLs of the other views of a mockup whose front is `base + "_f_fm." + ext`. */
  function Siblings(front: string, base: string, ext: string): ViewUrls {
    ViewUrls(front, base + "_b_fm." + ext, base + "_d_fm." + ext, base + "_fm." + ext)
  }

  /** `s` ends in `_f_fm.` followed by an extension of `n` characters that equals `ext`. */
  predicate EndsWithConvention(s: string, n: nat, ext: string) {
    |s| >= 6 + n && AtIgnoreCase(s, |s| - 6 - n, "_f_fm.") && EqualsIgnoreCase(s[|s| - n..], ext)
  }

  /** The length of the matched extension: 4 for `jpeg`, 3 for `jpg` or `png`, 0 for no match. */
  function ExtensionLength(url: string): (n: nat)
    ensures n == 0 || n == 3 || n == 4
    ensures n > 0 ==> |url| >= 6 + n && SplitsAt(url, url[..|url| - 6 - n], url[|url| - n..])
  {
    if EndsWithConvention(url, 4, "jpeg") then 4
    else if EndsWithConvention(url, 3, "jpg") || EndsWithConvention(url, 3, "png") then 3
    else 0
  }

  /** `deriveViewUrls(frontUrl)`: none for an empty URL or one that does not follow the
      naming convention; otherwise the front URL itself and its three siblings, which keep
      the extension exactly as it is written. */
  function DeriveViewUrls(frontUrl: string): (r: Option<ViewUrls>)
    ensures r.None? ==> forall base, ext :: !SplitsAt(frontUrl, base, ext)
    ensures r.Some? ==> exists base, ext :: SplitsAt(frontUrl, base, ext) && r.value == Siblings(frontUrl, base, ext)
  {
    var n := ExtensionLength(frontUrl);
    if frontUrl == "" || n == 0 then
      assert forall base, ext :: !SplitsAt(frontUrl, base, ext) by {
        forall base, ext | SplitsAt(frontUrl, base, ext) ensures false {
          MatchedExtensionLength(frontUrl, base, ext);
        }
      }
      None
    else
      var base := frontUrl[..|frontUrl| - 6 - n];
      var ext := frontUrl[|frontUrl| - n..];
      Some(Siblings(frontUrl, base, ext))
  }

  /** A match is seen by `ExtensionLength`. */
  lemma MatchedExtensionLength(url: string, base: string, ext: string)
    requires SplitsAt(url, base, ext)
    ensures ExtensionLength(url) == |ext| > 0
  {
    if EqualsIgnoreCase(ext, "jpeg") {
      assert EndsWithConvention(url, 4, "jpeg");
    } else if EqualsIgnoreCase(ext, "jpg") {
      assert EndsWithConvention(url, 3, "jpg");
      // the next-to-last letter is a `p`, where `jpeg` has its `e`
      assert Lower(ext[1]) == 'p' && ext[1] == url[|url| - 2];
    } else {
      assert EndsWithConvention(url, 3, "png");
      // the next-to-last letter is an `n`, where `jpeg` has its `e`
      assert Lower(ext[1]) == 'n' && ext[1] == url[|url| - 2];
    }
  }

  /** Two ways of splitting a URL by the convention are the same split. */
  lemma SplitUnique(url: string, b1: string, e1: string, b2: string, e2: string)
    requires SplitsAt(url, b1, e1) && SplitsAt(url, b2, e2)
    ensures b1 == b2 && e1 == e2
  {
    MatchedExtensionLength(url, b1, e1);
    MatchedExtensionLength(url, b2, e2);
  }

  /** Naming a front image by the convention and deriving from it gives back the parts:
      the siblings are built from exactly the base and the extension written. */
  lemma ConventionRoundTrip(base: string, ext: string)
    requires IsImageExtension(ext)
    ensures DeriveViewUrls(base + "_f_fm." + ext) == Some(Siblings(base + "_f_fm." + ext, base, ext))
  {
    var url := base + "_f_fm." + ext;
    assert url[..|base|] == base && url[|base| + 6..] == ext;
    assert url[|base|..|base| + 6] == "_f_fm.";
    assert SplitsAt(url, base, ext);
    var r := DeriveViewUrls(url);
    var b, e :| SplitsAt(url, b, e) && r.value == Siblings(url, b, e);
    SplitUnique(url, base, ext, b, e);
  }

  // ---------------------------------------------------------------- setViewForPlacement

  /** The view a placement is shown on: sleeves on their side, the back on the back, every
      other placement on the front. */
  function ViewForPlacement(placement: string): (view: string)
    ensures view == "front" || view == "left" || view == "right" || view == "back"
    ensures view == "left" <==> placement == "left-sleeve"
    ensures view == "right" <==> placement == "right-sleeve"
    ensures view == "back" <==> placement == "back"
    ensures view == "front" <==> placement != "left-sleeve" && placement != "right-sleeve" && placement != "back"
  {
    if placement == "left-sleeve" then "left"
    else if placement == "right-sleeve" then "right"
    else if placement == "back" then "back"
    else "front"
  }

  // ---------------------------------------------------------------- setBaseImageForView

  /** An `<img>` as the designer drives it: its `src`, the URL its error handler falls back
      to, and whether it carries the `is-flipped` class. */
  datatype Image = Image(src: string, fallback: string, flipped: bool)

  /** `applyImageWithFallback($image, primary, fallback)`: nothing happens for an empty primary. */
  function ApplyImageWithFallback(img: Image, primary: string, fallback: string): Image {
    if primary == "" then img else img.(src := primary, fallback := fallback)
  }

  /** Applying the same pair twice changes nothing more, and the `is-flipped` class is
      never touched. */
  lemma ApplyImageIdempotent(img: Image, primary: string, fallback: string)
    ensures var r := ApplyImageWithFallback(img, primary, fallback);
      ApplyImageWithFallback(r, primary, fallback) == r && r.flipped == img.flipped
  {
  }

  /** `fallbackViewImages[view]`, with "" for a view the table lacks. */
  function FallbackViewImage(view: string, sideImage: string, backImage: string): string {
    if view == "left" || view == "right" then sideImage
    else if view == "back" then backImage
    else ""
  }

  /** `currentColorImage || data.defaultImage || ''`. */
  function FrontUrl(colorImage: string, defaultImage: string): string {
    if colorImage != "" then colorImage else defaultImage
  }

  /** The primary and fallback URL `setBaseImageForView` applies for `view`. */
  function ViewImage(view: string, frontUrl: string, sideImage: string, backImage: string): (string, string) {
    match DeriveViewUrls(frontUrl)
    case Some(urls) =>
      if view == "back" then (urls.back, frontUrl)
      else if view == "left" || view == "right" then
        (urls.leftPrimary, if urls.leftFallback != "" then urls.leftFallback else frontUrl)
      else (urls.front, frontUrl)
    case None =>
      var image := FallbackViewImage(view, sideImage, backImage);
      (if image != "" then image else frontUrl, frontUrl)
  }

  /** `setBaseImageForView(view)`: the stage image after showing `view`. */
  function BaseImageForView(img: Image, view: string, frontUrl: string, sideImage: string, backImage: string): (r: Image)
    ensures r.flipped <==> view == "right"
  {
    var (primary, fallback) := ViewImage(view, frontUrl, sideImage, backImage);
    ApplyImageWithFallback(img, primary, fallback).(flipped := view == "right")
  }

  /** With a front image that follows the convention, the back view shows the `_b_fm`
      image, the side views the `_d_fm` image falling back to the `_fm` image, and any other
      view the front image, each other fallback being the front image; only `right` is flipped. */
  lemma DerivableViewImages(img: Image, view: string, frontUrl: string, sideImage: string, backImage: string)
    requires DeriveViewUrls(frontUrl).Some?
    ensures var urls := DeriveViewUrls(frontUrl).value;
      var r := BaseImageForView(img, view, frontUrl, sideImage, backImage);
      r.flipped == (view == "right") &&
      (view == "back" ==> r.src == urls.back && r.fallback == frontUrl) &&
      (view == "left" || view == "right" ==> r.src == urls.leftPrimary && r.fallback == urls.leftFallback) &&
      (view != "back" && view != "left" && view != "right" ==> r.src == frontUrl && r.fallback == frontUrl)
  {
    var urls := DeriveViewUrls(frontUrl).value;
    var base, ext :| SplitsAt(frontUrl, base, ext) && urls == Siblings(frontUrl, base, ext);
    assert |urls.back| > 0 && |urls.leftPrimary| > 0 && |urls.leftFallback| > 0 && |frontUrl| > 0;
  }

  /** Otherwise the view's image from the page's fallback table is shown, or the front
      image when the table has none, always falling back to the front image; with neither,
      the stage keeps its image. */
  lemma FallbackViewImages(img: Image, view: string, frontUrl: string, sideImage: string, backImage: string)
    requires DeriveViewUrls(frontUrl).None?
    ensures var r := BaseImageForView(img, view, frontUrl, sideImage, backImage);
      var image := FallbackViewImage(view, sideImage, backImage);
      r.flipped == (view == "right") &&
      (image != "" ==> r.src == image && r.fallback == frontUrl) &&
      (image == "" && frontUrl != "" ==> r.src == frontUrl && r.fallback == frontUrl) &&
      (image == "" && frontUrl == "" ==> r == img.(flipped := view == "right"))
  {
  }
}
