/** PHP values as they reach the plugin from WordPress (term meta, unserialized options),
    PHP's truthiness, and the WordPress / WooCommerce functions the plugin calls. */
module Php {
  import opened Wrappers

  /** An array key: PHP keeps integer and string keys apart. */
  datatype Key = IntKey(n: int) | StrKey(name: string)

  /** A PHP value. Arrays and objects are ordered lists of entries (an object's entries
      are its properties, which `(array)` exposes in declaration order). */
  datatype PhpValue =
    | PNull
    | PBool(b: bool)
    | PInt(i: int)
    | PFloat(f: real)
    | PStr(s: string)
    | PArray(entries: seq<Entry>)
    | PObject(props: seq<Entry>)

  datatype Entry = Entry(key: Key, value: PhpValue)

  /** A string is falsy in PHP when it is empty or exactly "0". */
  predicate StrTruthy(s: string) {
    s != "" && s != "0"
  }

  /** PHP's conversion to bool, as used by `if ($x)` and `?:`. */
  predicate Truthy(v: PhpValue) {
    match v
    case PNull => false
    case PBool(b) => b
    case PInt(i) => i != 0
    case PFloat(f) => f != 0.0
    case PStr(s) => StrTruthy(s)
    case PArray(es) => es != []
    case PObject(_) => true
  }

  /** The WordPress and WooCommerce functions the plugin calls, as the values they return.
      A function that returns a string or `false` is modelled as returning "" for `false`. */
  datatype Wp = Wp(
    // taxonomy_exists('pa_color')
    colorTaxonomyExists: bool,
    // get_term_by('slug', $slug, 'pa_color'): the term id, None for `false` or a WP_Error
    termBySlug: string -> Option<int>,
    // get_term_meta($term_id, $key, true)
    termMeta: (int, string) -> PhpValue,
    // wp_get_attachment_image_url($id, $size)
    attachmentImageUrl: (int, string) -> string,
    // wp_get_attachment_url($id)
    attachmentUrl: int -> string,
    // filter_var($s, FILTER_VALIDATE_URL) !== false
    isValidUrl: string -> bool,
    // maybe_unserialize($s)
    maybeUnserialize: string -> PhpValue,
    // is_numeric($s) for a string, with the value of (int) $s when it is
    numericString: string -> Option<int>,
    // wc_sanitize_taxonomy_name($s)
    sanitizeTaxonomyName: string -> string
  )

  /** PHP's `(int)` on a finite float: the fraction is dropped, rounding toward zero. */
  function Truncate(f: real): (n: int)
    ensures f >= 0.0 ==> 0 <= n && n as real <= f < n as real + 1.0
    ensures f < 0.0 ==> n <= 0 && n as real - 1.0 < f <= n as real
  {
    if f >= 0.0 then f.Floor else -((-f).Floor)
  }

  /** `is_numeric($v) ? (int) $v : none`. */
  function NumericValue(wp: Wp, v: PhpValue): (r: Option<int>)
    ensures v.PInt? ==> r == Some(v.i)
    ensures v.PFloat? ==> r == Some(Truncate(v.f))
    ensures v.PStr? ==> r == wp.numericString(v.s)
    ensures !v.PInt? && !v.PFloat? && !v.PStr? ==> r == None
  {
    match v
    case PInt(i) => Some(i)
    case PFloat(f) => Some(Truncate(f))
    case PStr(s) => wp.numericString(s)
    case _ => None
  }
}
