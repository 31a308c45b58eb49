/** The plugin's colour settings: the default table, reading the stored option over it,
    cleaning a submitted form, and the CSS custom properties built from the result
    (mockmaster-designer.php). */
module Settings {
  import opened Wrappers
  import opened Assoc
  import opened Php

  /** `get_default_settings()`: the thirteen settings in their fixed order. */
  const Defaults: Table<string> := [
    ("text_color", "#1a1a1a"),
    ("stage_bg", "#f6f6f6"),
    ("arc_color", "#1a1a1a"),
    ("panel_bg", "#ffffff"),
    ("panel_border", "#1a1a1a"),
    ("category_bg", "#ffffff"),
    ("category_active_bg", "#1a1a1a"),
    ("category_active_text", "#ffffff"),
    ("swatch_active_bg", "#1a1a1a"),
    ("swatch_active_text", "#ffffff"),
    ("accent", "#e01b24"),
    ("button_bg", "#ffffff"),
    ("button_text", "#e01b24")
  ]

  /** No two settings share a name. */
  lemma DefaultNamesDiffer()
    ensures forall i, j :: 0 <= i < j < |Defaults| ==> Defaults[i].0 != Defaults[j].0
  {
    forall i, j | 0 <= i < j < |Defaults| ensures Defaults[i].0 != Defaults[j].0 {
      assert |Defaults[i].0| != |Defaults[j].0| || Defaults[i].0[0] != Defaults[j].0[0];
    }
  }

  /** The table has thirteen distinct keys. */
  lemma DefaultsShape()
    ensures |Defaults| == 13 && Distinct(Defaults)
  {
    DefaultNamesDiffer();
    DistinctByEntries(Defaults);
  }

  /** A stored table is the model of a PHP array: its keys never repeat. */
  predicate IsArray(t: Table<string>) {
    Distinct(t)
  }

  /** `array_intersect_key($a, $b)`: the entries of `a`, in `a`'s order, whose key `b` has;
      looking a key up finds `a`'s value exactly when `b` has the key. */
  function IntersectKey(a: Table<string>, b: Table<string>): (r: Table<string>)
    ensures forall k :: Get(r, k) == if k in Keys(b) then Get(a, k) else None
    ensures forall k :: k in Keys(r) ==> k in Keys(a)
  {
    if a == [] then []
    else
      var rest := IntersectKey(a[1..], b);
      assert Keys(a) == [a[0].0] + Keys(a[1..]);
      if a[0].0 in Keys(b) then
        assert Keys([a[0]] + rest) == [a[0].0] + Keys(rest);
        assert ([a[0]] + rest)[1..] == rest;
        [a[0]] + rest
      else rest
  }

  /** `array_intersect_key` of an array is an array. */
  lemma {:induction false} IntersectKeyDistinct(a: Table<string>, b: Table<string>)
    requires Distinct(a)
    ensures Distinct(IntersectKey(a, b))
  {
    if a != [] {
      DistinctCons(a);
      IntersectKeyDistinct(a[1..], b);
      var rest := IntersectKey(a[1..], b);
      if a[0].0 in Keys(b) {
        assert ([a[0]] + rest)[1..] == rest;
        DistinctCons([a[0]] + rest);
      }
    }
  }

  /** `array_merge($a, $b)` for string keys: each entry of `b`, in order, overwrites the
      value under its key where `a` has it and is appended where it does not. */
  function ArrayMerge(a: Table<string>, b: Table<string>): Table<string>
    decreases |b|
  {
    if b == [] then a
    else Put(ArrayMerge(a, b[..|b| - 1]), b[|b| - 1].0, b[|b| - 1].1)
  }

  /** When every key of `b` is already in `a`, merging keeps `a`'s keys and their order. */
  lemma {:induction false} ArrayMergeKeys(a: Table<string>, b: Table<string>)
    requires forall k' :: k' in Keys(b) ==> k' in Keys(a)
    ensures Keys(ArrayMerge(a, b)) == Keys(a)
    decreases |b|
  {
    if b != [] {
      var n := |b| - 1;
      assert Keys(b) == Keys(b[..n]) + [b[n].0];
      ArrayMergeKeys(a, b[..n]);
    }
  }

  /** A key finds `b`'s value where `b` has it and `a`'s otherwise. */
  lemma {:induction false} ArrayMergeGet(a: Table<string>, b: Table<string>, k: string)
    requires Distinct(b)
    ensures Get(ArrayMerge(a, b), k) == if k in Keys(b) then Get(b, k) else Get(a, k)
    decreases |b|
  {
    if b != [] {
      var n := |b| - 1;
      var pre := b[..n];
      assert Keys(b) == Keys(pre) + [b[n].0];
      assert Distinct(pre) by {
        forall i, j | 0 <= i < j < n ensures Keys(pre)[i] != Keys(pre)[j] {
          assert Keys(b)[i] != Keys(b)[j];
        }
      }
      ArrayMergeGet(a, pre, k);
      if k == b[n].0 {
        assert Get(b, k) == Some(b[n].1);
      } else if k in Keys(b) {
        var i :| 0 <= i < |b| && Keys(b)[i] == k;
        assert pre[i] == b[i];
        assert Get(pre, k) == Some(b[i].1);
      } else {
        assert k !in Keys(pre);
      }
    }
  }

  /** `get_settings()`: `array_merge($defaults, array_intersect_key($stored, $defaults))`. */
  function GetSettings(stored: Table<string>): Table<string> {
    ArrayMerge(Defaults, IntersectKey(stored, Defaults))
  }

  /** The settings have exactly the default keys, in default order; a key finds the stored
      value when the option has that key and the default otherwise; stored keys that are
      not settings are dropped. */
  lemma GetSettingsSpec(stored: Table<string>)
    requires IsArray(stored)
    ensures Keys(GetSettings(stored)) == Keys(Defaults)
    ensures forall k :: k in Keys(Defaults) ==>
      Get(GetSettings(stored), k) == if k in Keys(stored) then Get(stored, k) else Get(Defaults, k)
  {
    var b := IntersectKey(stored, Defaults);
    IntersectKeyDistinct(stored, Defaults);
    ArrayMergeKeys(Defaults, b);
    forall k | k in Keys(Defaults)
      ensures Get(GetSettings(stored), k) == if k in Keys(stored) then Get(stored, k) else Get(Defaults, k)
    {
      ArrayMergeGet(Defaults, b, k);
    }
  }

  /** The value a submitted form gives one setting: the submitted string when the form has
      the key, else the default; then `sanitize_hex_color`, falling back to the default
      when that is falsy. `sanitize` returns "" where `sanitize_hex_color` returns null. */
  function CleanValue(input: Table<string>, sanitize: string -> string, key: string, default: string): string {
    var raw := GetOr(input, key, default);
    if StrTruthy(sanitize(raw)) then sanitize(raw) else default
  }

  /** The table the save loop builds from a default table: key by key in default order,
      each cleaned from the submitted form. */
  function CleanTable(defaults: Table<string>, input: Table<string>, sanitize: string -> string): (r: Table<string>)
    ensures |r| == |defaults|
  {
    seq(|defaults|, i requires 0 <= i < |defaults| => (defaults[i].0, CleanValue(input, sanitize, defaults[i].0, defaults[i].1)))
  }

  /** Whatever the default table, the cleaned table has its keys in its order; each value
      is the sanitized submitted value, or the sanitized default when the key was not
      submitted, falling back to the default when sanitizing gives a falsy result. */
  lemma CleanTableSpec(defaults: Table<string>, input: Table<string>, sanitize: string -> string)
    ensures Keys(CleanTable(defaults, input, sanitize)) == Keys(defaults)
    ensures forall i :: 0 <= i < |defaults| ==>
      var raw := if defaults[i].0 in Keys(input) then Get(input, defaults[i].0).value else defaults[i].1;
      CleanTable(defaults, input, sanitize)[i].1 == if StrTruthy(sanitize(raw)) then sanitize(raw) else defaults[i].1
  {
    var c := CleanTable(defaults, input, sanitize);
    assert forall i :: 0 <= i < |c| ==> Keys(c)[i] == Keys(defaults)[i];
  }

  /** The table `handle_settings_save` stores. */
  function CleanSettings(input: Table<string>, sanitize: string -> string): Table<string> {
    CleanTable(Defaults, input, sanitize)
  }

  /** The submitted settings: `$_POST['settings']` when it is set and an array, else an empty array. */
  function SubmittedSettings(post: Option<Table<string>>): Table<string> {
    post.GetOr([])
  }

  /** The loop of `handle_settings_save` over `$defaults`. */
  method CleanLoop(defaults: Table<string>, input: Table<string>, sanitize: string -> string) returns (clean: Table<string>)
    ensures clean == CleanTable(defaults, input, sanitize)
  {
    ghost var all := CleanTable(defaults, input, sanitize);
    clean := [];
    var i := 0;
    while i < |defaults|
      invariant 0 <= i <= |defaults|
      invariant clean == all[..i]
    {
      var (key, value) := defaults[i];
      var raw := if key in Keys(input) then GetOr(input, key, "") else value;
      var sanitized := sanitize(raw);
      assert raw == GetOr(input, key, value);
      assert all[..i + 1] == all[..i] + [(key, if StrTruthy(sanitized) then sanitized else value)];
      clean := clean + [(key, if StrTruthy(sanitized) then sanitized else value)];
      i := i + 1;
    }
    assert all[..|defaults|] == all;
  }

  /** `handle_settings_save`, the part that builds `$clean` (authorisation, nonce check,
      `update_option` and the redirect are not modelled). */
  method SaveSettings(post: Option<Table<string>>, sanitize: string -> string) returns (clean: Table<string>)
    ensures clean == CleanSettings(SubmittedSettings(post), sanitize)
  {
    var input := SubmittedSettings(post);
    clean := CleanLoop(Defaults, input, sanitize);
  }

  /** Saved settings have exactly the default keys, in default order; each value is the
      sanitized submitted value, or the default when sanitizing fails, and a key that was
      not submitted is sanitized from its default. */
  lemma CleanSettingsSpec(input: Table<string>, sanitize: string -> string)
    ensures Keys(CleanSettings(input, sanitize)) == Keys(Defaults)
    ensures forall i :: 0 <= i < |Defaults| ==>
      var raw := if Defaults[i].0 in Keys(input) then Get(input, Defaults[i].0).value else Defaults[i].1;
      CleanSettings(input, sanitize)[i].1 == if StrTruthy(sanitize(raw)) then sanitize(raw) else Defaults[i].1
  {
    CleanTableSpec(Defaults, input, sanitize);
  }

  /** When `sanitize_hex_color` accepts the default colours as they are (they are valid hex
      colours), a setting that was not submitted is saved as its default. */
  lemma UnsubmittedKeepsDefault(input: Table<string>, sanitize: string -> string, i: int)
    requires 0 <= i < |Defaults| && Defaults[i].0 !in Keys(input)
    requires forall j :: 0 <= j < |Defaults| ==> sanitize(Defaults[j].1) == Defaults[j].1
    ensures CleanSettings(input, sanitize)[i] == Defaults[i]
  {
  }

  /** What `handle_settings_save` stores is what `get_settings` reads back. */
  lemma SaveThenRead(input: Table<string>, sanitize: string -> string)
    ensures GetSettings(CleanSettings(input, sanitize)) == CleanSettings(input, sanitize)
  {
    var c := CleanSettings(input, sanitize);
    CleanSettingsSpec(input, sanitize);
    DefaultsShape();
    assert IsArray(c);
    GetSettingsSpec(c);
    TableExtensionality(c, GetSettings(c));
  }

  /** Reading the settings twice changes nothing. */
  lemma GetSettingsIdempotent(stored: Table<string>)
    requires IsArray(stored)
    ensures GetSettings(GetSettings(stored)) == GetSettings(stored)
  {
    var s := GetSettings(stored);
    GetSettingsSpec(stored);
    DefaultsShape();
    assert IsArray(s);
    GetSettingsSpec(s);
    TableExtensionality(s, GetSettings(s));
  }

  /** The custom properties `get_css_variables_inline` emits, in the order of its format
      string, each with the setting that fills it. */
  const CssVariables: seq<(string, string)> := [
    ("text-color", "text_color"),
    ("stage-bg", "stage_bg"),
    ("arc-color", "arc_color"),
    ("panel-bg", "panel_bg"),
    ("panel-border", "panel_border"),
    ("category-bg", "category_bg"),
    ("category-active-bg", "category_active_bg"),
    ("category-active-text", "category_active_text"),
    ("swatch-active-bg", "swatch_active_bg"),
    ("swatch-active-text", "swatch_active_text"),
    ("accent", "accent"),
    ("button-bg", "button_bg"),
    ("button-text", "button_text")
  ]

  /** One declaration, `--mm-<name>: <value>;`. */
  function Declaration(name: string, value: string): string {
    "--mm-" + name + ": " + value + ";"
  }

  /** Declarations separated by single spaces. */
  function JoinDeclarations(ds: seq<string>): string {
    if |ds| == 0 then ""
    else if |ds| == 1 then ds[0]
    else ds[0] + " " + JoinDeclarations(ds[1..])
  }

  /** The declarations of the format string, filled from `settings`. */
  function Declarations(settings: Table<string>): (ds: seq<string>)
    ensures |ds| == |CssVariables|
  {
    seq(|CssVariables|, i requires 0 <= i < |CssVariables| =>
      Declaration(CssVariables[i].0, GetOr(settings, CssVariables[i].1, "")))
  }

  /** `get_css_variables_inline()`: the thirteen declarations over `get_settings()`. */
  function CssVariablesInline(stored: Table<string>): string {
    JoinDeclarations(Declarations(GetSettings(stored)))
  }

  /** `build_css_variables()`: the declarations as the body of a `.mockmaster-designer` rule. */
  function BuildCssVariables(stored: Table<string>): string {
    ".mockmaster-designer {" + CssVariablesInline(stored) + "}"
  }

  /** The format string follows the default table: the i-th custom property is filled
      from the i-th setting. */
  lemma CssVariablesFollowDefaults()
    ensures |CssVariables| == |Defaults|
    ensures forall i :: 0 <= i < |Defaults| ==> CssVariables[i].1 == Defaults[i].0
  {
  }

  /** The i-th setting reads the stored value when there is one and the default otherwise. */
  lemma SettingAt(stored: Table<string>, i: int)
    requires IsArray(stored) && 0 <= i < |Defaults|
    ensures GetOr(GetSettings(stored), Defaults[i].0, "") == GetOr(stored, Defaults[i].0, Defaults[i].1)
  {
    GetSettingsSpec(stored);
    DefaultsShape();
    var k := Defaults[i].0;
    assert Keys(Defaults)[i] == k;
    assert Get(Defaults, k) == Some(Defaults[i].1);
  }

  /** The inline CSS emits, in default order, one custom property per setting, carrying the
      stored value when the option has one and the default otherwise. */
  lemma CssVariablesInlineSpec(stored: Table<string>)
    requires IsArray(stored)
    ensures |Declarations(GetSettings(stored))| == |Defaults|
    ensures forall i :: 0 <= i < |Defaults| ==>
      Declarations(GetSettings(stored))[i] == Declaration(CssVariables[i].0, GetOr(stored, Defaults[i].0, Defaults[i].1))
  {
    CssVariablesFollowDefaults();
    forall i | 0 <= i < |Defaults|
      ensures Declarations(GetSettings(stored))[i] == Declaration(CssVariables[i].0, GetOr(stored, Defaults[i].0, Defaults[i].1))
    {
      SettingAt(stored, i);
    }
  }

  /** The thirteen declarations as the settings page states them: the i-th custom property
      of the format string with the stored value of the i-th setting, or its default. */
  function StoredDeclarations(stored: Table<string>): (ds: seq<string>)
    ensures |ds| == |Defaults|
    ensures forall i :: 0 <= i < |Defaults| ==>
      ds[i] == Declaration(CssVariables[i].0, GetOr(stored, Defaults[i].0, Defaults[i].1))
  {
    seq(|Defaults|, i requires 0 <= i < |Defaults| =>
      Declaration(CssVariables[i].0, GetOr(stored, Defaults[i].0, Defaults[i].1)))
  }

  /** The stylesheet rule is `.mockmaster-designer {`, then those declarations separated by
      single spaces, then `}`. */
  lemma BuildCssVariablesSpec(stored: Table<string>)
    requires IsArray(stored)
    ensures BuildCssVariables(stored) == ".mockmaster-designer {" + JoinDeclarations(StoredDeclarations(stored)) + "}"
  {
    CssVariablesInlineSpec(stored);
    var ds := Declarations(GetSettings(stored));
    assert ds == StoredDeclarations(stored);
    assert CssVariablesInline(stored) == JoinDeclarations(ds);
  }
}
