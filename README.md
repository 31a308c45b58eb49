# MockMaster Designer — a verified model of its core rules

MockMaster Designer is a WordPress/WooCommerce plugin. It shows a product mockup on a
stage, lets a shopper upload a design, place it on one of six print placements, size it,
drag it and save it, and it styles the designer from thirteen colour settings. This project
models the rules inside that plumbing and proves what they guarantee:

- **Settings** (`settings.dfy`):
  - the fixed default table;
  - `get_settings` reading the stored option over the defaults;
  - the loop of `handle_settings_save` that cleans a submitted form;
  - the CSS custom properties built from the result.
- **Product data** (`product_data.dfy`, `legacy_product_data.dfy`): `build_product_data`
  in its current and its earlier revision. It folds a product's variations into a colour
  table and a nested colour → size table. Both revisions are written as the source's loop
  (a method) and as a specification function.
- **Swatch images** (`swatch.dfy`, `url_match.dfy`):
  - `get_swatch_image_url`, the loop over term-meta keys;
  - `resolve_ssp_image_url`;
  - `find_ssp_image`, the recursive search of a nested PHP value for an image URL;
  - its two regular expressions, written out as string functions;
  - `get_preview_product_id`.
- **Views** (`views.dfy`):
  - `deriveViewUrls`, the `_f_fm.<ext>` naming convention;
  - the placement → view mapping;
  - the choice of stage image and fallback for a view.
- **Placement sizes** (`placement.dfy`): the size table, `getPlacementSizeBounds`, the
  clamp and the numbers of `getPlacementDimensionsText`.
- **The designer** (`designer.dfy`):
  - the state `initDesigner` keeps in its closure;
  - a pure transition function per event handler, plus an `Event` type, `Step` and `Run`;
  - a `Designer` class whose fields are that state and whose methods, one per handler,
    are proved to follow the transition functions and to keep the invariant `Valid`.

Supporting modules:

- `wrappers.dfy`: `Option`.
- `text.dfy`: case-insensitive comparison and PHP's `trim`.
- `assoc.dfy`: ordered PHP arrays as association lists. Assignment overwrites in place or
  appends; a loop of assignments is folded, and last-write-wins lemmas are proved about
  the fold.
- `php.dfy`: PHP values and truthiness. The WordPress functions the code calls are
  parameters, in the record `Wp`.

PHP arrays with string keys are sequences of key/value pairs whose keys do not repeat.
Sizes and positions are `real`, which is exact: there is no floating point.

## Model

| member | source | states |
|---|---|---|
| Settings.DefaultsShape | mockmaster-designer.php:402-418 | the default table has thirteen entries with distinct keys |
| Settings.DefaultNamesDiffer | mockmaster-designer.php:402-418 | no two entries of the default table share a key |
| Settings.GetSettingsSpec | mockmaster-designer.php:420-425 | the settings have exactly the default keys in default order; a key reads the stored value when the option has it and the default otherwise; other stored keys are dropped |
| Settings.GetSettingsIdempotent | mockmaster-designer.php:420-425 | reading settings a second time changes nothing |
| Settings.IntersectKey | mockmaster-designer.php:424 | `array_intersect_key`: a key finds the first array's value exactly when the second array has that key |
| Settings.ArrayMergeGet | mockmaster-designer.php:424 | `array_merge` with string keys: a key reads the second array's value where it has one and the first's otherwise |
| Settings.ArrayMergeKeys | mockmaster-designer.php:424 | merging keys that are already present keeps the first array's keys and their order |
| Settings.SaveSettings | mockmaster-designer.php:329-336 | the loop builds exactly the table `CleanSettings` describes; a missing or non-array form counts as empty |
| Settings.CleanSettingsSpec | mockmaster-designer.php:333-336 | saved settings have exactly the default keys in default order; each value is the sanitized submitted value, or the default when sanitizing gives a falsy result; an unsubmitted key is sanitized from its default |
| Settings.CleanTableSpec | mockmaster-designer.php:333-336 | for any default table, the cleaned table keeps its keys in its order and takes at each key the sanitized submitted value (or the sanitized default when nothing was submitted) when that is truthy, the default otherwise |
| Settings.CleanLoop | mockmaster-designer.php:333-336 | the `foreach` over the defaults builds exactly the cleaned table |
| Settings.UnsubmittedKeepsDefault | mockmaster-designer.php:333-336 | a setting that was not submitted is saved as its default, given that sanitizing leaves the default colours unchanged |
| Settings.SaveThenRead | mockmaster-designer.php:333-336 | `get_settings` returns exactly what the save stored |
| Settings.CssVariablesFollowDefaults | mockmaster-designer.php:429-445 | the format string lists one custom property per setting, in default order |
| Settings.CssVariablesInlineSpec | mockmaster-designer.php:427-446 | the inline CSS has thirteen declarations; the i-th is `--mm-<name>: <value>;` for the i-th setting, with the stored value or else the default |
| Settings.BuildCssVariablesSpec | mockmaster-designer.php:448-450 | the rule is `.mockmaster-designer {`, then those declarations separated by single spaces, then `}` |
| ProductData.BuildProductData | mockmaster-designer.php:452-496 | a missing product gives the four empty fields; otherwise `defaultImage` is the product's large image; a product that is not variable gets the single colour `default`, labelled `Default`, with the default image and no sizes; `sizes` stays empty; colour keys are distinct |
| ProductData.BuildProductDataLoop | mockmaster-designer.php:452-496 | the loop over the variations returns exactly `BuildProductData` |
| ProductData.ColorListed | mockmaster-designer.php:466-479 | a colour is listed exactly when some variation has that sanitized colour slug and the slug is truthy (neither "" nor "0"; a missing attribute's slug is "") |
| ProductData.ColorOrder | mockmaster-designer.php:468-479 | the colour keys are the truthy colour slugs of the variations, each once, in the order of its first occurrence (a rewritten key keeps its place) |
| ProductData.FirstColor | mockmaster-designer.php:468-479 | the first colour key, which the designer script starts on (assets/js/mockmaster-designer.js:425), is the slug of the first variation with a truthy colour slug |
| ProductData.ColorFromLastVariation | mockmaster-designer.php:473-479 | a colour's entry comes from the last variation with that colour: raw attribute as label, its image or else the default image, and its swatch URL |
| ProductData.SizeListed | mockmaster-designer.php:470-486 | a size is listed under a colour exactly when some variation has both sanitized slugs and both are truthy (neither "" nor "0"; a missing attribute's slug is "") |
| ProductData.SizeFromLastVariation | mockmaster-designer.php:481-486 | a (colour, size) entry comes from the last variation with both; a missing `max_qty` gives stock 0 |
| ProductData.SizedColorsAreListed | mockmaster-designer.php:473-486 | every colour with sizes is also a listed colour |
| LegacyProductData.LegacyBuildProductData | mockmaster-designer/mockmaster-designer.php:126-169 | the same empty, default-image, non-variable and distinct-keys rules for the earlier revision |
| LegacyProductData.LegacyBuildProductDataLoop | mockmaster-designer/mockmaster-designer.php:126-169 | the earlier loop returns exactly `LegacyBuildProductData` |
| LegacyProductData.LegacyColorListed | mockmaster-designer/mockmaster-designer.php:142-152 | a colour is listed exactly when some variation has that sanitized colour slug and the slug is truthy (neither "" nor "0") |
| LegacyProductData.LegacyColorFromLastVariation | mockmaster-designer/mockmaster-designer.php:147-152 | a colour entry is the last such variation's raw label and its image or else the default image, with no swatch field |
| LegacyProductData.NewerAddsOnlySwatch | mockmaster-designer/mockmaster-designer.php:126-169 | dropping `swatch` from every colour of the current revision's result gives the earlier revision's result; everything else is equal |
| UrlMatch.SchemeLength | mockmaster-designer.php:548 | 8 exactly when `https://` is there and 7 exactly when `http://` is, ignoring case |
| UrlMatch.RunEnd | mockmaster-designer.php:551 | the run of characters outside `[)'"\s]` from a position ends at a stop character or at the end |
| UrlMatch.MatchEnd | mockmaster-designer.php:551 | a greedy match starting at a position, or that none starts there |
| UrlMatch.FirstMatch | mockmaster-designer.php:551 | the leftmost match at or after a position, or that there is none |
| UrlMatch.EmbeddedUrl | mockmaster-designer.php:551-553 | none exactly when the pattern matches nowhere; otherwise the leftmost greedy match |
| UrlMatch.MatchUnique | mockmaster-designer.php:551 | a match is determined by where it starts |
| UrlMatch.EmbeddedUrlIsLeftmost | mockmaster-designer.php:551-553 | any leftmost match is what `EmbeddedUrl` returns |
| UrlMatch.MatchStartsWithScheme | mockmaster-designer.php:548-553 | every embedded match itself starts with a scheme |
| Swatch.Lookup | mockmaster-designer.php:569-570 | `array_key_exists`: a value is found exactly when an entry has the key, and it is that entry's value |
| Swatch.FindInString | mockmaster-designer.php:546-554 | the result is "" or starts with a scheme; a trimmed string that starts with a scheme is returned as it is |
| Swatch.FindSspImage | mockmaster-designer.php:538-589 | the result is "" or truthy, and is either an attachment URL or starts with a scheme |
| Swatch.FindPreferredIsFirst | mockmaster-designer.php:568-575 | the preferred-key loop returns the first non-empty result among the keys present, in key order |
| Swatch.FindInValuesIsFirst | mockmaster-designer.php:576-581 | the value loop returns the first non-empty result among the values, in array order |
| Swatch.FirstFound | mockmaster-designer.php:568-581 | "" exactly when every candidate is ""; otherwise the first non-empty candidate |
| Swatch.ArraySearchOrder | mockmaster-designer.php:556-583 | an array gives the first non-empty result of its preferred keys, in listed order, followed by all its values |
| Swatch.ObjectAsArray | mockmaster-designer.php:585-587 | an object is searched as the array of its properties |
| Swatch.NumericWithAttachment | mockmaster-designer.php:540-544 | a numeric value (integer, float or numeric string) whose attachment has a truthy URL gives that URL, before any string rule |
| Swatch.ScalarWithoutAttachment | mockmaster-designer.php:538-589 | null, a boolean, or a number without an attachment URL gives "" |
| Swatch.StringWithScheme | mockmaster-designer.php:540-549 | a string that names no attachment with a URL and starts with a scheme once trimmed gives the trimmed string |
| Swatch.StringWithEmbeddedUrl | mockmaster-designer.php:540-553 | otherwise a string that names no attachment with a URL gives the leftmost URL embedded in its trimmed form |
| Swatch.StringWithoutUrl | mockmaster-designer.php:540-554 | a string that names no attachment with a URL and has neither gives "" |
| Swatch.SspData | mockmaster-designer.php:597-603 | a string option is replaced by what `maybe_unserialize` makes of it; any other value is searched as it is |
| Swatch.ResolveSspImageUrl | mockmaster-designer.php:591-606 | a falsy option gives ""; otherwise the search result over the unserialized option |
| Swatch.MetaImage | mockmaster-designer.php:518-532 | a truthy value with a truthy thumbnail of the attachment `(int)` of it names gives that thumbnail, which takes priority; otherwise a truthy string that is a valid URL gives itself; the key yields nothing exactly when neither holds or the value is falsy |
| Swatch.FirstMetaImage | mockmaster-designer.php:517-533 | none exactly when no key yields an image; otherwise the image of the first key that does |
| Swatch.SwatchImageUrl | mockmaster-designer.php:498-536 | "" without the colour taxonomy or the term; the result is "" or truthy, and is a meta image, an attachment URL or a string starting with a scheme (`Swatch.SwatchFirstHit` and `Swatch.SwatchFallback` fix which) |
| Swatch.GetSwatchImageUrl | mockmaster-designer.php:498-536 | the loop with its early return gives exactly `SwatchImageUrl` |
| Swatch.SwatchFirstHit | mockmaster-designer.php:517-533 | the first meta key that yields an image decides, whatever follows |
| Swatch.SwatchFallback | mockmaster-designer.php:535 | when no meta key yields an image, the Smart Swatches Pro option decides |
| Swatch.PreviewProductId | mockmaster-designer.php:381-387 | a missing parameter gives 0; otherwise the absolute value of the parameter's integer |
| Views.ExtensionLength | assets/js/mockmaster-designer.js:90 | the matched extension is 3 or 4 characters long, and a match splits the URL by the convention |
| Views.DeriveViewUrls | assets/js/mockmaster-designer.js:86-102 | none exactly when the URL does not end in `_f_fm.jpg`, `_f_fm.jpeg` or `_f_fm.png` (ignoring case); otherwise the URL itself and the base followed by `_b_fm.`, `_d_fm.` and `_fm.` and the extension as written |
| Views.MatchedExtensionLength | assets/js/mockmaster-designer.js:90 | every split by the convention is the one the regular expression finds |
| Views.SplitUnique | assets/js/mockmaster-designer.js:90-95 | a URL splits into base and extension in at most one way |
| Views.ConventionRoundTrip | assets/js/mockmaster-designer.js:86-102 | naming a front image `base_f_fm.ext` and deriving from it gives back siblings built from exactly that base and extension |
| Views.ViewForPlacement | assets/js/mockmaster-designer.js:315-325 | the view is `left` exactly for `left-sleeve`, `right` exactly for `right-sleeve`, `back` exactly for `back`, and `front` for every other placement |
| Views.ApplyImageIdempotent | assets/js/mockmaster-designer.js:104-116 | `applyImageWithFallback` applied twice with the same URLs changes nothing more than once, and never touches the `is-flipped` class |
| Views.BaseImageForView | assets/js/mockmaster-designer.js:332-355 | the stage image is flipped exactly on the `right` view |
| Views.DerivableViewImages | assets/js/mockmaster-designer.js:332-349 | with derivable URLs, `back` shows the `_b_fm` image, `left` and `right` show the `_d_fm` image falling back to the `_fm` image, and other views show the front image |
| Views.FallbackViewImages | assets/js/mockmaster-designer.js:349-352 | otherwise the page's image for the view, else the front image, always falling back to the front image; with neither, the stage image is unchanged |
| Placement.SizeConfigOf | assets/js/mockmaster-designer.js:4-41 | a size entry exists exactly for the six placements of the table |
| Placement.PlacementLabel | assets/js/mockmaster-designer.js:43-50 | an unknown placement is labelled by its own name |
| Placement.DesignAspect | assets/js/mockmaster-designer.js:126-132 | the ratio is positive, and equals natural width over natural height once both are known |
| Placement.SizeBounds | assets/js/mockmaster-designer.js:138-158 | bounds exist exactly for a known placement, and carry the entry's default |
| Placement.ShippedBounds | assets/js/mockmaster-designer.js:4-41 | with the shipped table the bounds are the entry's own min and max at every aspect ratio, and 0 < min <= default <= max |
| Placement.Clamp | assets/js/mockmaster-designer.js:170-171 | the result lies within the bounds, is the value when that lies within them, and is the nearer bound otherwise |
| Placement.PlacementDimensions | assets/js/mockmaster-designer.js:181-205 | none (`--`) for an empty or unknown placement; otherwise width = aspect × height, and the size (override, else current, else default) is the width for wide designs and the height for tall ones |
| Placement.LongerSideIsSize | assets/js/mockmaster-designer.js:192-202 | for a positive size, the longer side is the size and both sides are positive |
| Designer.FindIndex | assets/js/mockmaster-designer.js:601 | `findIndex`: the first index with the name, or none exactly when no entry has it |
| Designer.Find | assets/js/mockmaster-designer.js:627 | `find`: an entry with the name, or none exactly when no entry has it |
| Designer.Upsert | assets/js/mockmaster-designer.js:601-617 | the entry is found under its name afterwards; other names find what they found before; an entry with the same name is replaced in place, and otherwise the entry is appended; unique names stay unique |
| Designer.UpdatePlacementSlider | assets/js/mockmaster-designer.js:160-179 | with a slider and a known placement, the size becomes the clamp of the previous size, or of the default when there was none, and lies within the bounds; otherwise nothing changes |
| Designer.InitValid | assets/js/mockmaster-designer.js:67-84 | the designer starts valid, with no saved designs and unlocked |
| Designer.StepValid | assets/js/mockmaster-designer.js:471-662 | every handler keeps the invariant: unique saved names, each with a name and a placement, and a lock only on a named design |
| Designer.SaveKeepsValid | assets/js/mockmaster-designer.js:593-621 | saving keeps the invariant: the upserted entry has a name and a placement and names stay unique |
| Designer.EditKeepsValid | assets/js/mockmaster-designer.js:625-646 | editing keeps the invariant: the restored name belongs to a saved entry, and the lock is released |
| Designer.OtherHandlersKeepDesigns | assets/js/mockmaster-designer.js:515-591 | every handler except upload, save and edit (so also the swatch and alternate-view handlers) leaves the saved designs, the design name and the lock as they were |
| Designer.RunValid | assets/js/mockmaster-designer.js:471-662 | any sequence of events keeps the invariant |
| Designer.SaveNeedsDesignAndPlacement | assets/js/mockmaster-designer.js:594-597 | saving without a design name or a placement changes nothing |
| Designer.SaveUpserts | assets/js/mockmaster-designer.js:593-621 | a save records the position, locks, and upserts the entry by name; other entries are untouched |
| Designer.SavedSize | assets/js/mockmaster-designer.js:599-611 | the saved size is the current size, else the placement's default, and the entry has dimensions and a label |
| Designer.UploadResets | assets/js/mockmaster-designer.js:488-498 | an upload sets the design name and clears placement, size and position, and unlocks; the saved designs stay |
| Designer.PlacementClickResets | assets/js/mockmaster-designer.js:566-578 | a placement click clears the position, restarts the size from the default (within the bounds), and shows the placement's view |
| Designer.EditUnknownIsNoOp | assets/js/mockmaster-designer.js:625-631 | editing a name that was not saved changes nothing |
| Designer.EditRestores | assets/js/mockmaster-designer.js:625-646 | editing restores the entry's name, placement, size (clamped), position and view, and unlocks |
| Designer.MouseDownGuard | assets/js/mockmaster-designer.js:523-533 | a drag starts exactly when there is a design image and the placement is unlocked |
| Designer.MouseMoveClamps | assets/js/mockmaster-designer.js:535-558 | a move does nothing unless dragging, unlocked and with a stage offset; otherwise exactly the design's offset changes, to the pointer relative to the stage clamped to `[0, width] × [0, height]` |
| Designer.LockedDesignStaysPut | assets/js/mockmaster-designer.js:276-286 | while locked, a mousedown or a move is ignored by its handler and the disabled placement buttons, size slider and save button fire nothing, so the state stays as it is |
| Designer.LockedRunNoDrag | assets/js/mockmaster-designer.js:523-551 | along any sequence of events without an upload or an edit, a locked design stays locked, no drag starts, and its saved designs, name, placement and position stay as they were |
| Designer.SwatchUnflips | assets/js/mockmaster-designer.js:471-486 | a swatch click switches to the colour's image when it has one, and always leaves the stage unflipped |
| Designer.Designer.constructor | assets/js/mockmaster-designer.js:52-84 | the fields start as `Init` says, and that state is valid |
| Designer.Designer.RefreshSlider | assets/js/mockmaster-designer.js:160-179 | the new state is `UpdatePlacementSlider` of the old |
| Designer.Designer.ApplyPlacementCss | assets/js/mockmaster-designer.js:207-225 | the new state is `ApplyPlacement` of the old |
| Designer.Designer.ShowBaseImage | assets/js/mockmaster-designer.js:332-355 | the new state is `SetBaseImageForView` of the old |
| Designer.Designer.ShowViewForPlacement | assets/js/mockmaster-designer.js:315-330 | the new state is `SetViewForPlacement` of the old |
| Designer.Designer.Upload | assets/js/mockmaster-designer.js:488-513 | the new state is `OnUpload` of the old, and it is valid |
| Designer.Designer.DesignRead | assets/js/mockmaster-designer.js:508-511 | the new state is `OnDesignRead` of the old, and it is valid |
| Designer.Designer.DesignLoad | assets/js/mockmaster-designer.js:515-521 | the new state is `OnDesignLoad` of the old, and it is valid |
| Designer.Designer.MouseDown | assets/js/mockmaster-designer.js:523-533 | the new state is `OnMouseDown` of the old, and it is valid |
| Designer.Designer.MouseMove | assets/js/mockmaster-designer.js:535-558 | the new state is `OnMouseMove` of the old, and it is valid |
| Designer.Designer.MouseUp | assets/js/mockmaster-designer.js:560-564 | the new state is `OnMouseUp` of the old, and it is valid |
| Designer.Designer.PlacementClick | assets/js/mockmaster-designer.js:566-578 | the new state is `OnPlacementClick` of the old, and it is valid |
| Designer.Designer.SizeInput | assets/js/mockmaster-designer.js:580-591 | the new state is `OnSizeInput` of the old, and it is valid |
| Designer.Designer.Save | assets/js/mockmaster-designer.js:593-623 | the new state is `OnSave` of the old: `savedDesigns` is updated by index assignment or append, as `Upsert` says; it is valid |
| Designer.Designer.Edit | assets/js/mockmaster-designer.js:625-652 | the new state is `OnEdit` of the old, and it is valid |
| Designer.Designer.RestoreEntry | assets/js/mockmaster-designer.js:632-646 | the new state is `Restore` of the old |
| Designer.Designer.AltViewClick | assets/js/mockmaster-designer.js:654-662 | the new state is `OnAltViewClick` of the old, and it is valid |
| Designer.Designer.SwatchClick | assets/js/mockmaster-designer.js:471-486 | the new state is `OnSwatchClick` of the old, and it is valid |

## Left out

- The colour-quantization (palette extraction) engine: none of the modelled files contains it.
- WordPress and WooCommerce plumbing is not modelled: hooks, asset enqueueing, shortcode
  and admin-page HTML, capability and nonce checks, `update_option`/`get_option`, and redirects.
- The WordPress and WooCommerce functions the code calls are parameters with no behaviour
  of their own (fields of `Php.Wp`, or a `sanitize` function for `sanitize_hex_color`):
  `taxonomy_exists`, `get_term_by`, `get_term_meta`, `wp_get_attachment_image_url`,
  `wp_get_attachment_url`, `filter_var`, `maybe_unserialize`, `is_numeric` with `(int)`,
  and `wc_sanitize_taxonomy_name`.
- `Settings.GetSettingsSpec`: the stored option is taken to be an array of strings. A
  stored value that is not an array would make `array_intersect_key` fail, and that case
  is not modelled.
- `Settings.SaveSettings`: submitted values are strings. A nested array in the form is
  not modelled.
- `Settings.CleanValue`: `sanitize_hex_color` returning null is modelled as returning "".
  Both are falsy, so the default is used either way.
- `ProductData.BuildProductData`: `wp_get_attachment_image_url` returning `false` is
  modelled as "".
- `ProductData.BuildProductData`: `max_qty` is kept as an opaque PHP value.
- `ProductData.BuildProductData`: a variation's image `src` or `max_qty` that is set but
  null counts as absent, as `??` treats it.
- `Swatch.SwatchImageUrl`: `get_term_by` failing and returning a `WP_Error` are one case,
  "no term".
- `Swatch.PreviewProductId`: `absint` is the absolute value of PHP's `(int)` of the query
  string, and that `(int)` conversion is a parameter.
- `Php.PhpValue`: floats are finite reals. `NAN` and `INF`, and the out-of-range results
  of `(int)` on a float, are not modelled; `Php.Truncate` is `(int)` on a finite float
  within range.
- `Php.PhpValue` and `Swatch.FindSspImage`: a PHP value is a finite tree. PHP references
  and the cycles they form (for example an unserialized object whose property `r:`
  refers back to itself) are not modelled. On such a value the source's search recurses
  through the object-as-array and value steps without end; the model's termination and
  its `Plausible` result hold only for finite values.
- `Designer.OnEdit` and `Designer.OnSwatchClick`: the name or colour key is taken as the
  string the markup holds. jQuery's `.data()` turns a canonical numeric string into a
  number and `true`, `false` and `null` into their values, so a design named `123` is not
  found by `===` and its edit button does nothing; the model restores it all the same.
- `Designer.Designer.PlacementClick`, `Designer.Designer.SizeInput`,
  `Designer.Designer.Save`: these are the handler bodies, which hold no lock test of their
  own. That a locked page never calls them, its controls being disabled, is stated by
  `Designer.Enabled` in `Designer.Step`, not by the class.
- The integer-like key order of JavaScript objects is not modelled. `data.colors` is
  enumerated in its PHP order, which matches the JavaScript order unless a colour slug is
  an integer.
- DOM and jQuery work is not modelled: HTML rendering (`renderColors` markup,
  `renderQuantities`, `renderSavedDesigns`), class toggling, button highlighting,
  `setAltViewButtonImages`, the status and dimensions texts, and the resize handler.
  `renderColors` is modelled only where it sets the first colour's image, in `Designer.Init`.
- `Designer.ApplyPlacement`: the CSS values it writes (placement `top`/`left`, width
  scaled by size over default) are not modelled. The model records only that the design
  is positioned by the placement's table entry.
- `Designer.OnMouseMove`: the dragged position is kept in stage pixels. It is not turned
  into CSS text.
- `Designer.OnSave`: `getDesignPositionPercent` reads the layout (stage size, CSS `left`
  and `top`), so its result is a parameter of the save.
- The `FileReader` is not modelled. Its load handler is the separate event `DesignRead`,
  and the image's natural size arrives with `DesignLoad`.
- Float formatting is not modelled: `toFixed`, the `Approx. size` text, and `%`/`px`
  strings. `dimensions` holds the two numbers, not the text.
- `Designer.UpdatePlacementSlider`: the shipped shortcode markup has no size slider,
  status, dimensions or save elements, so the JavaScript's `.length` guards skip that
  code. `Page.hasSizeControl` is the slider's presence. For save, the button's absence
  means no `Save` event.
- `Placement.SizeBounds`: the `min` special case for tall designs is modelled as written,
  but `Placement.ShippedBounds` shows that the shipped table never reaches it.
- The image `error` event is not modelled. `Views.Image.fallback` records the URL its
  handler would switch to.
- The earlier revision's JavaScript (`mockmaster-designer/assets/js/mockmaster-designer.js`)
  is not part of this model: its only logic is a constant table lookup and swatch HTML.
