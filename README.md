# DoubleClick for WordPress — verified model of the settings sanitiser and the ad widget

This project models the data logic of the DoubleClick for WordPress plugin in Dafny
and proves properties of it:

- **Breakpoint settings** (`dfw-options.php`). `dfw_breakpoints_save` cuts the flat
  posted list `[id0, min0, max0, id1, …]` into groups of three (`array_chunk`). It
  keeps the groups whose first value is PHP-truthy and turns each kept group into a
  `{identifier, min-width, max-width}` record, in order. `dfw_breakpoints_input`
  renders the theme's read-only breakpoints and then exactly five editable slots.
  Each slot is filled from the stored record, or from `''`. `dfw_network_code_input`
  prefers a network code set by the theme over the stored option.
- **The ad widget** (`dfw-widget.php`). `DoubleClick_Widget::widget` picks the ad
  identifier, with `'ident'` as the default. It bails out with an HTML comment when
  `sizes` is empty. Otherwise it unsets the entries with empty sizes in place, builds
  the optional `{lazyLoad: true}` argument and calls `$doubleclick->place_ad` once,
  between `before_widget` (and the title) and `after_widget`.
  `DoubleClick_Widget::update` builds a fresh instance field by field.

Layout:

- `php.dfy` (module `Php`): `Option`, PHP truthiness (`""` and `"0"` are false), and
  `Scalar` (null, integer or string).
- `options.dfy` (module `Options`): `array_chunk`, the sanitiser as a specification
  function `SavedRecords` and as the looping method `SaveBreakpoints`, the form as
  the looping method `BreakpointsInput`, and the network-code field. It also proves
  the form→save round trip.
- `widget.dfy` (module `Widget`): the render as the spec function `WidgetOutput` and
  the method `RenderWidget`, with its in-place unset loop. It also holds `Update` and
  the properties connecting the two.

Modelling choices:

- A rendered form is a sequence of `Input(name, value, disabled)`. What the browser
  posts back is `Submitted`: the values of the enabled inputs with that name, in
  document order.
- Rendering is a sequence of `Event`s: `Echo(html)`, or one recorded
  `PlaceAd(identifier, sizes, args)` standing for the external `place_ad` call.
- Ordered PHP arrays of sizes are `seq<(string, string)>` with distinct keys, so
  that key order survives filtering.
- PHP reads a missing index as null. `array_chunk` can leave a short last group, and
  a kept record then has `None` widths.
- The host filters `wp_kses_post`, the `widget_title` filter and `strip_tags` are
  opaque functions passed in as parameters.

Two behaviours of the code are easy to miss:

- `widget()` tests `empty($sizes)` (dfw-widget.php:36) before the loop at lines 37-41
  filters out the empty sizes. Sizes that are non-empty but all empty therefore still
  reach `place_ad`, once, with an empty map (`Widget.AllEmptySizesStillPlaceAd`).
- `dfw_breakpoints_save` keeps a short trailing group when its identifier is truthy.
  The missing widths of that group are null (dfw-options.php:167-171;
  `Options.SavedShortGroup`).

## Model

| member | source | states |
|---|---|---|
| `Options.ArrayChunk` | dfw-options.php:164 | `array_chunk($value, 3)`: the groups concatenate back to the input, and each has 1 to 3 values |
| `Options.ArrayChunkCount` | dfw-options.php:164 | there are ceil(n/3) groups |
| `Options.ArrayChunkFull` | dfw-options.php:164 | every group except the last has exactly 3 values |
| `Options.ArrayChunkWhole` | dfw-options.php:164 | when the length is a multiple of 3, every group is full |
| `Options.ArrayChunkAppend` | dfw-options.php:164 | chunking splits at any multiple of 3: chunks of `a + b` are chunks of `a` then chunks of `b` |
| `Options.At` | dfw-options.php:170-171 | reading `$group[i]` gives the element when the index exists and null when the group is too short |
| `Options.KeepsGroup` | dfw-options.php:167 | definition: a group is kept when its first element is set and PHP-truthy |
| `Options.GroupRecord` | dfw-options.php:168-172 | the record of a kept group is the group's elements 0, 1 and 2, copied unchanged; a width is null exactly when the group is too short to hold it |
| `Options.KeptRecords` | dfw-options.php:166-174 | at most one record per group, and every record has a truthy identifier |
| `Options.SavedRecords` | dfw-options.php:162-177 | every record the sanitiser emits has a truthy identifier |
| `Options.SaveBreakpoints` | dfw-options.php:162-177 | the chunk-and-append loop returns exactly `SavedRecords(value)` |
| `Options.SavedRecordsBound` | dfw-options.php:164-174 | at most ceil(n/3) records, so at most 5 for the 15-value form |
| `Options.SaveEmpty` | dfw-options.php:162-177 | an empty post saves no breakpoints |
| `Options.KeptRecordsAppend` | dfw-options.php:166-174 | the records of `a + b` are the records of `a` followed by those of `b` (order kept, no gaps) |
| `Options.SavedRecordsAppend` | dfw-options.php:164-174 | slots are sanitised independently and in order: saving `a + b`, with `|a|` a multiple of 3, is saving `a` then `b` |
| `Options.SavedSlot` | dfw-options.php:167-172 | a whole slot becomes `{id, min, max}` unchanged when `id` is truthy; a `""` or `"0"` identifier contributes nothing |
| `Options.SavedShortGroup` | dfw-options.php:167-172 | a short trailing group with a truthy identifier is kept, and its missing widths are null |
| `Options.KeptRecordsSound` | dfw-options.php:167-172 | each emitted record is some kept group's elements 0, 1 and 2, copied without validation |
| `Options.KeptRecordsComplete` | dfw-options.php:166-173 | every group with a truthy identifier has its record in the output |
| `Options.KeptRecordsOfWholeGroups` | dfw-options.php:168-172 | records made from full groups carry both widths |
| `Options.PostedSlot` | dfw-options.php:134-136 | a record's slot posts exactly 3 values: its identifier and its widths, with `''` where a width is null; read back as a group, they give the same identifier and those widths |
| `Options.Flatten` | dfw-options.php:132-156 | posting records back gives 3 values per record, one `PostedSlot` per record in order |
| `Options.FlattenAppend` | dfw-options.php:132-156 | flattening distributes over concatenation |
| `Options.ResavedAppend` | dfw-options.php:162-177 | the reference posted-then-saved result distributes over concatenation |
| `Options.SaveFlattened` | dfw-options.php:162-177 | saving posted records yields exactly the truthy-identifier records in order, with absent widths posted as `''` |
| `Options.ResavedIdentity` | dfw-options.php:162-177 | records that have truthy identifiers and both widths are their own posted-then-saved result |
| `Options.RoundTrip` | dfw-options.php:162-177 | for records with truthy identifiers and both widths, save(flatten(records)) == records |
| `Options.SaveIdempotent` | dfw-options.php:162-177 | for a post of whole slots, re-posting the saved records and saving again returns the same records |
| `Options.ThemeInputsReadOnly` | dfw-options.php:122-128 | the theme's breakpoint rows are disabled and have no name |
| `Options.SubmittedDisabled` | dfw-options.php:124-126 | disabled inputs are never posted |
| `Options.SubmittedAppend` | dfw-options.php:122-158 | the browser posts each input's value in document order |
| `Options.SubmittedFieldInputs` | dfw-options.php:137-155 | the named, enabled slot inputs post exactly their values |
| `Options.ThemeInputs` | dfw-options.php:122-128 | the read-only rows of the theme's non-option breakpoints, three inputs at most per breakpoint |
| `Options.FieldInputs` | dfw-options.php:137-155 | one editable input named `dfw_breakpoints[]` per value, so exactly as many inputs as values |
| `Options.Slot` | dfw-options.php:133-136 | definition: slot `i` is stored record `i`, or a blank record when fewer are stored |
| `Options.Slots` | dfw-options.php:132-133 | definition: the form always has exactly five slots, numbered 0 to 4 |
| `Options.FormValues` | dfw-options.php:132-156 | definition: the values the untouched form posts are the five slots flattened; `Options.FormSlotValues` proves their length and contents |
| `Options.ThemeStep` | dfw-options.php:122-128 | each theme breakpoint that is not an option adds its three read-only inputs |
| `Options.FormSlotStep` | dfw-options.php:133-157 | each pass of the `while ($i < 5)` loop appends slot `i`'s three named inputs |
| `Options.BreakpointsInput` | dfw-options.php:119-160 | renders the theme's read-only rows, then the five editable slots of the stored records |
| `Options.FormPosts` | dfw-options.php:122-158 | of the whole rendered form, exactly the five slots' values are posted |
| `Options.FormSlotValues` | dfw-options.php:132-158 | the form posts exactly 15 values; slot i carries stored record i's fields, or `''` where the record or field is absent |
| `Options.SlotsSplit` | dfw-options.php:133-136 | the first five slots are the stored records, and the remaining slots are blank |
| `Options.ResavedBlank` | dfw-options.php:134 | blank slots save to nothing |
| `Options.FormRoundTrip` | dfw-options.php:132-177 | saving the untouched form returns the first 5 stored records with truthy identifiers, in order; a null width comes back as `''`; records beyond the fifth are dropped |
| `Options.FormRoundTripOfSaved` | dfw-options.php:132-177 | stored records from a save of whole slots come back unchanged, up to five |
| `Options.NetworkCodeInput` | dfw-options.php:109-117 | a theme code is shown as `code (set in theme)`, disabled, and nothing is posted; otherwise the stored code (or `''`) is shown and posted |
| `Options.SaveExampleOneSlot` | dfw-options.php:162-177 | `["phone","0","480","","",""]` saves only the phone record |
| `Options.SaveExampleTwoSlots` | dfw-options.php:162-177 | `["a","1","2","b","3","4"]` saves both records in order |
| `Options.SaveExampleShortGroup` | dfw-options.php:162-177 | a `"0"` identifier drops its slot, and a short trailing group keeps a null max-width |
| `Widget.AdIdentifier` | dfw-widget.php:32 | the identifier passed on is always truthy: the instance's when it is truthy, `'ident'` otherwise |
| `Widget.SizesEmpty` | dfw-widget.php:35-36 | definition: `empty($instance['sizes'])`, which holds for missing or empty sizes |
| `Widget.TitleOutput` | dfw-widget.php:61-63 | at most one title line, present exactly when the instance's title is truthy |
| `Widget.WidgetOutput` | dfw-widget.php:36-68 | definition, the reference for `widget()`: the no-sizes comment, or `before_widget`, the title line, one `place_ad` call, and `after_widget`; `Widget.WidgetOutputOrder` and `Widget.WidgetPlacesAdOnce` prove its shape |
| `Widget.AdOptions` | dfw-widget.php:52-55 | the argument is `{lazyLoad: true}` exactly when the instance's lazyLoad is truthy, and null otherwise |
| `Widget.DropEmptySizes` | dfw-widget.php:37-41 | filtering never lengthens the size map |
| `Widget.DropEmptySizesSound` | dfw-widget.php:37-41 | after filtering, every entry is an original entry with a truthy size |
| `Widget.DropEmptySizesComplete` | dfw-widget.php:37-41 | every entry with a truthy size is kept, with the same key and size |
| `Widget.DropEmptySizesAppend` | dfw-widget.php:37-41 | filtering works entry by entry, keeping the original order |
| `Widget.DropEmptySizesIdempotent` | dfw-widget.php:37-41 | filtering twice is filtering once |
| `Widget.DropEmptySizesDistinct` | dfw-widget.php:37-41 | the filtered sizes are still a PHP array, with no key twice |
| `Widget.DropEmptySizesAllEmpty` | dfw-widget.php:37-41 | sizes that are all empty filter down to the empty map |
| `Widget.RemoveKey` | dfw-widget.php:39 | `unset` never lengthens the map |
| `Widget.RemoveKeyAppend` | dfw-widget.php:39 | `unset` acts on each part of a concatenation separately |
| `Widget.RemoveAbsentKey` | dfw-widget.php:39 | unsetting a key that is not present changes nothing |
| `Widget.RemoveOnlyHolder` | dfw-widget.php:39 | unsetting a key that only one entry holds removes just that entry |
| `Widget.UnsetVisited` | dfw-widget.php:37-41 | in the `foreach`, unsetting the current key removes exactly the current entry |
| `Widget.CurrentEntryHeld` | dfw-widget.php:37-38 | while the `foreach` runs, the array being filtered holds the current key only in the current entry, so `$sizes[$breakpoint]` reads that entry's own size |
| `Widget.UnsetStep` | dfw-widget.php:37-41 | an entry with an empty size is dropped by its `unset` |
| `Widget.KeepStep` | dfw-widget.php:37-41 | an entry with a truthy size is kept in place |
| `Widget.RenderWidget` | dfw-widget.php:27-69 | the render, including its in-place unset loop, emits exactly `WidgetOutput` |
| `Widget.WidgetPlacesAdOnce` | dfw-widget.php:36-68 | `place_ad` is called exactly once when sizes are non-empty, with the resolved identifier, filtered sizes and lazy-load argument; it is never called when sizes are empty or missing |
| `Widget.WidgetOutputOrder` | dfw-widget.php:42-68 | with no sizes, the only output is the comment; otherwise the order is `before_widget`, the title (only if truthy), the ad, then `after_widget` |
| `Widget.AdCalls` | dfw-widget.php:66 | the recorded ad calls are events of the output |
| `Widget.AdCallsAppend` | dfw-widget.php:58-68 | the ad calls of consecutive output are collected in order |
| `Widget.AllEmptySizesStillPlaceAd` | dfw-widget.php:36-41 | non-empty sizes that are all empty still reach `place_ad` once, with an empty map |
| `Widget.RenderExampleOneSize` | dfw-widget.php:32-66 | sizes `{phone: "", tablet: "300x250"}` give one call `place_ad("ident", {tablet: "300x250"}, null)` |
| `Widget.Update` | dfw-widget.php:146-154 | the title is dropped; the identifier is `''` when empty and otherwise tag-stripped; lazyLoad is `0` when empty and otherwise kept (so its truthiness is kept); breakpoints, sizes and size are copied |
| `Widget.UpdateIgnoresOld` | dfw-widget.php:146-153 | the previous instance has no influence on the result |
| `Widget.UpdateThenRender` | dfw-widget.php:146-153 | an instance saved by `update()` renders no title line; it gets an ad exactly when the posted sizes are non-empty, under the stripped identifier or `'ident'`, and lazily exactly when the posted lazyLoad is truthy |

## Left out

- WordPress registration and hooks (`add_options_page`, `add_action`, `add_settings_section`, `add_settings_field`, `register_setting`, `register_widget`): host wiring with no logic.
- The permission check in `dfw_option_page_html` (`current_user_can` / `wp_die`): a host call.
- HTML markup other than the form inputs' name, value and disabled state; the section intro texts; the labels; i18n (`__`, `esc_html__`); and `DoubleClick_Widget::form`, which is presentation only.
- `esc_attr` is treated as the identity over the browser round trip: the form shows each stored value as it is, and the browser posts it back unchanged. The browser's own sanitising of `type="number"` values is not modelled.
- Options.FormRoundTrip, Options.FormRoundTripOfSaved: hold only for values that `esc_attr` and the browser return unchanged. `esc_attr` does not double-encode an existing character reference, so a stored `a&amp;b` is shown as `a&amp;b` and posted back as `a&b`. It also turns a value with invalid UTF-8 into `''`. Neither is modelled, because the model has no HTML entity decoding or character encoding.
- Persistence (`get_option`, `maybe_unserialize`): the stored breakpoints are a given sequence, and a never-saved network code is `None`. When the theme sets the network code, WordPress itself stores null for the unposted field. That is host behaviour and is not modelled.
- The behaviour of `$doubleclick->place_ad` and of the `$doubleclick->breakpoints` objects: external. Only the call made is recorded, and theme breakpoints are plain values.
- Values of other PHP types: the posted breakpoint list is strings only. A missing or non-array post passed to `dfw_breakpoints_save` is not modelled. A non-array `sizes` in a widget instance is not modelled.
- `Widget.RenderWidget`: requires that the size map has distinct keys, which every PHP array has. The model represents the map as a sequence of pairs.
