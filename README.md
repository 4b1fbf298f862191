# ayon-ui-qt core, modelled in Dafny

This project models the deterministic logic of the AYON Qt widget library. Qt
objects are replaced by plain values throughout:

- widgets are ids in a graph;
- font metrics, icon sizes and file-system answers are inputs;
- signals are an event log that grows by appending;
- regular expressions are explicit scanners.

What the model covers, one Dafny module per source file:

- **Theme store and style dispatch** (`StyleData`, `ButtonStyle`, `StyleDispatch`).
  - Loading the theme: HSL conversion and palette alias resolution, with the `ValueError` for an alias left unresolved.
  - `default_variant` / `validate_variant`.
  - `get_style`: the global, default-variant and variant dictionaries are merged, the states are flattened with palette substitution, and results are memoised.
  - The button variant, size and sub-rectangle rules, the check-box and button pixel metrics, and the legacy combo-box size.
  - The registry that maps an enum member and a widget key to a handler, with the fallback to the parent style.
  - The legacy `StyleData` follows the same rules. Its only difference is the Qt palette it builds: it does not set the `Light`, `Midlight`, `Dark`, `Mid` and `Shadow` roles, which the newer store takes from `qt-active-light`, `qt-active-midlight`, `qt-active-dark`, `qt-active-mid` and `qt-active-shadow`. The Qt palette is not part of this model.
- **Tree styler** (`WidgetTree`).
  - The depth-first `_collect_widgets` / `_collect_child_widgets` guarded by a seen set.
  - The style singleton and the restyling loop.
  - Installing the event filter.
- **CSS-to-QSS converter** (`QssConverter`, `QssRules`).
  - Colour normalisation, property filtering and font-family quoting.
  - Pruning of shorthands and defaults.
  - Compound selectors, rule formatting and the recursive walk over nested selectors and states.
- **Component state**:
  - the filter widget (`Filter`);
  - the tag selector and its dropdown (`TagSelector`);
  - the two comment editors and their attachment lists (`TextBox`, `LegacyTextBox`);
  - the "@" mention completer and the highlighting of mentions and links (`Completion`);
  - the comment widget (`Comment`);
  - the two breadcrumb widgets (`EntityPath`, `LegacyEntityPath`);
  - the avatar (`UserImage`);
  - the detail panel (`DetailPanel`);
  - the activity stream (`ActivityStream`).
- **Web markdown** (`WebMarkdown`): the spans the review site's markdown dialect marks, the plain text left once their syntax is removed, and the ranges of that text each span formats.
- **Image cache metadata** (`ImageCache`): the singleton, hits and inserts, the size of the files on disk, least-recently-used eviction, and validation of the cache against the disk.
- **Payload preprocessing** (`Payload`): `preprocess_payload` turns the activity payload into comment, publish and status-change models.

Three modules are shared helpers:

- `Wrappers`: `Option` and `Result`.
- `ODict`: Python's insertion-ordered `dict`.
- `Text`: Python string operations over `seq<char>`.

Some behaviours of the code worth stating up front:

- There is no configuration error type. A missing `"global"` or `"widgets"` section raises a plain `KeyError`, and an unresolved palette alias raises `ValueError`.
- An unknown variant falls back to the widget's default variant.
- An unknown state applies no state overrides, and every state sub-dictionary is still dropped. Nothing falls back to a "normal" entry.
- A widget without variants raises `IndexError`.
- `style_widget_and_siblings` collects from the widget it is given, plus that widget's children and layout widgets. It does not collect the widget's siblings.
- `get_button_variant` reads the `_variant` / `variant` attribute only. The newer `AYButton` stores its variant as `_variant_str`, so that attribute is not read.

## Model

| member | source | states |
|---|---|---|
| StyleData.HslConverted | client/ayon_ui_qt/ayon_style.py:152-154 | the first palette pass keeps every key in place and converts exactly the values written `hsl(...)` |
| StyleData.HslLoop | client/ayon_ui_qt/ayon_style.py:152-154 | the in-place loop leaves the palette equal to `HslConverted` of the original |
| StyleData.ResolveFromSpec | client/ayon_ui_qt/ayon_style.py:155-156 | the alias pass from entry `i` on keeps keys and earlier entries, and rewrites each later entry against the palette as it stands when the pass reaches it |
| StyleData.PaletteResolvedInOrder | client/ayon_ui_qt/ayon_style.py:155-156 | entry `m` becomes the value its alias names in the palette with entries before `m` already rewritten and later ones original, or stays as it was: one step, in place, in insertion order |
| StyleData.ResolveLoop | client/ayon_ui_qt/ayon_style.py:155-156 | the in-place loop computes exactly `ResolveAliases` |
| StyleData.FirstUnresolved | client/ayon_ui_qt/ayon_style.py:157-159 | no key is reported iff no value names a palette key; a reported key is one whose value still names a palette key |
| StyleData.FirstUnresolvedLoop | client/ayon_ui_qt/ayon_style.py:157-159 | the raising loop reports the same key as `FirstUnresolved` |
| StyleData.LoadedPaletteResolved | client/ayon_ui_qt/ayon_style.py:150-159 | a palette that loads maps no value to a palette key; a failing load fails with `ValueError` |
| StyleData.AliasBackward | client/ayon_ui_qt/ayon_style.py:155-159 | an alias to an earlier final entry resolves to its colour |
| StyleData.AliasForward | client/ayon_ui_qt/ayon_style.py:155-159 | a forward alias chain `a -> b -> c` is followed one step only and the load raises `ValueError` naming `a` |
| StyleData.ForwardSteps | client/ayon_ui_qt/ayon_style.py:155-156 | the alias pass on that chain yields `a: c`, `b: #ffffff`, `c: #ffffff` |
| StyleData.Load | client/ayon_ui_qt/ayon_style.py:146-162 | the constructor fails exactly when the palette load fails, with the same error; otherwise it yields a valid store with an empty cache and empty last key |
| StyleData.WidgetVariants | client/ayon_ui_qt/ayon_style.py:197-198 | the variant names of a widget present in the table; `KeyError("widgets")` without a widgets table |
| StyleData.WidgetData | client/ayon_ui_qt/ayon_style.py:200-201 | fails only when the widgets table is missing; a widget missing from it reads as `{}` |
| StyleData.DefaultVariant | client/ayon_ui_qt/ayon_style.py:203-206 | fails (`IndexError`) iff the widget has no variants, even when `"default-variant"` is set, because the fallback is evaluated eagerly; otherwise it is the `"default-variant"` value when one is set, whether or not it names a variant, and the first variant key when none is |
| StyleData.ValidateVariantRule | client/ayon_ui_qt/ayon_style.py:208-211 | the requested variant is kept iff it is a variant key; `None` or an unknown name gives the default variant; a successful result is a variant key or the widget's named default |
| StyleData.MergePrecedence | client/ayon_ui_qt/ayon_style.py:226-228 | a key of the merged dictionary takes the validated variant's value, else the default variant's, else the global one |
| StyleData.SubstResolved | client/ayon_ui_qt/ayon_style.py:234-240 | with a resolved palette, `pal.get(v, v)` is idempotent and never yields a palette key |
| StyleData.ApplyStateOk | client/ayon_ui_qt/ayon_style.py:233-235 | writing the state entries fails with `TypeError` iff one of them is a list or dict (unhashable for `pal.get`); otherwise the dictionary grows exactly when a state entry adds a new key |
| StyleData.ApplyStateLoop | client/ayon_ui_qt/ayon_style.py:234-235 | the inner loop computes exactly `ApplyState` |
| StyleData.RemoveAllSpec | client/ayon_ui_qt/ayon_style.py:241-242 | after the pops, exactly the listed keys are gone and every other key keeps its value |
| StyleData.FlattenSpec | client/ayon_ui_qt/ayon_style.py:230-242 | entry by entry: the state sub-dictionary and every other dictionary are dropped, a list is kept, a scalar is palette-substituted, a key named by the state sub-dictionary takes the state's substituted value, and no other key appears; a state entry that grows the dictionary during iteration raises as Python does |
| StyleData.FlattenLoop | client/ayon_ui_qt/ayon_style.py:230-242 | the loop and the pops compute exactly `Flatten` |
| StyleData.FlattenedIsFlat | client/ayon_ui_qt/ayon_style.py:230-242 | a flattened dictionary holds no dictionary value and no string naming a palette key |
| StyleData.CacheKeyShared | client/ayon_ui_qt/ayon_style.py:244-245 | the memo key is the raw request string: variant `None` and variant `"None"` share it, and so do `("a-b", "c")` and `("a", "b-c")` |
| StyleData.ComputeStyleErrors | client/ayon_ui_qt/ayon_style.py:222-228 | the exceptions of a cache miss in the order raised: `KeyError("widgets")`, then `IndexError` for a widget without variants, then `KeyError("global")` |
| StyleData.ComputedStyleIsFlat | client/ayon_ui_qt/ayon_style.py:216-246 | every style `get_style` computes from a loaded theme holds no dictionary value and no string naming a palette key |
| StyleData.Store.constructor | client/ayon_ui_qt/ayon_style.py:160-162 | a store over a loaded theme starts with an empty cache and empty last key |
| StyleData.Store.CurrentStyle | client/ayon_ui_qt/ayon_style.py:248-249 | succeeds iff the last key is cached (a fresh store raises `KeyError`) |
| StyleData.Store.GetStyle | client/ayon_ui_qt/ayon_style.py:216-246 | a cached raw key returns the stored dictionary and changes nothing; a miss returns `ComputeStyle`, and on success stores it under the raw key and makes it the current style; an exception changes nothing |
| ButtonStyle.VariantAttr | client/ayon_ui_qt/ayon_style.py:362-367 | the attribute loop ends with `variant` when the widget has it, else `_variant` when it has that, else `None` |
| ButtonStyle.ButtonVariantRule | client/ayon_ui_qt/ayon_style.py:357-372 | no widget gives `"surface"`; the result is the attribute value exactly when that value is non-empty and a known `QPushButton` variant, otherwise `"surface"` or the theme's `KeyError` |
| ButtonStyle.ButtonStatePriority | client/ayon_ui_qt/ayon_style.py:398-408 | each state name holds exactly under its flags: disabled over pressed (sunken) over hover (mouse-over and not on) over checked (on) over base |
| ButtonStyle.LegacyButtonStateRule | ayon_ui_qt/ayon_style.py:361-367 | the older pick: disabled over pressed over hover over base, with no checked state; it agrees with the newer pick on every unchecked button and differs on an idle checked one |
| ButtonStyle.GetButtonStyle | client/ayon_ui_qt/ayon_style.py:391-412 | a failing variant lookup is passed on and changes nothing; a cached request returns the stored style and changes nothing; a new request returns the theme style for `QPushButton`, the variant and the state name, and on success stores it under its key and makes it the current style; the store stays valid |
| ButtonStyle.PushButtonSize | client/ayon_ui_qt/ayon_style.py:594-605 | a button option gives at least 32x24; no option gives 100x30; an option of another kind gives the parent style's size |
| ButtonStyle.ContentSizeCases | client/ayon_ui_qt/ayon_style.py:646-661 | icon plus 4 plus text wide and the taller of the two for icon and text; the icon size alone; the text box alone; 0x0 for neither |
| ButtonStyle.PushButtonSizeParts | client/ayon_ui_qt/ayon_style.py:620-678 | the icon padding for an icon-only button, the text padding otherwise; twice the horizontal padding added to the width and twice the vertical to the height, then the 32x24 minimum |
| ButtonStyle.PushButtonSizeMonotone | client/ayon_ui_qt/ayon_style.py:630-678 | a wider text box never makes a text button narrower |
| ButtonStyle.Inset | client/ayon_ui_qt/ayon_style.py:699-701 | the contents rectangle lies inside by the horizontal padding left and right and the vertical padding top and bottom |
| ButtonStyle.FocusRect | client/ayon_ui_qt/ayon_style.py:703-704 | the focus rectangle is 2 pixels larger on every side |
| ButtonStyle.FocusRectInverse | client/ayon_ui_qt/ayon_style.py:699-704 | insetting the focus rectangle by 2 each way gives back the button rectangle |
| ButtonStyle.SubElementRect | client/ayon_ui_qt/ayon_style.py:680-706 | an error (`ValueError`) exactly for other elements; the contents rectangle uses the icon padding iff the option has an icon and the widget text is empty; the focus rectangle grows by 2 |
| ButtonStyle.HasIcon | ayon_ui_qt/ayon_style.py:337-352 | no widget has no icon; otherwise the `has_icon` attribute decides, else a `has_icon` property that is not `None`, else whether the icon is non-null |
| ButtonStyle.LegacySubElementRectRule | ayon_ui_qt/ayon_style.py:621-648 | an error exactly for other elements; the older contents rectangle uses the icon padding only for a widget with a true `has_icon` attribute and no text; the focus rectangle grows by 2 |
| ButtonStyle.ButtonMetric | client/ayon_ui_qt/ayon_style.py:340-355 | a value exactly for the registered button metrics |
| ButtonStyle.ButtonMetricValues | client/ayon_ui_qt/ayon_style.py:340-355 | button margin 6, frame width 0, default indicator 0, focus margins 2 and 2 |
| ButtonStyle.CheckboxMetric | client/ayon_ui_qt/ayon_style.py:817-829 | indicator 32 wide and 18 high, 8 pixels of label spacing, and 0 for every other metric |
| ButtonStyle.ComboboxSizeRule | ayon_ui_qt/ayon_style.py:954-982 | `IndexError` exactly for an icon with no widget icon size and no available sizes; without an icon the padded text, or 0 for no text; with an icon the padded text width plus the padded icon width plus one text padding between them when there is text width, and the larger of the padded heights |
| ButtonStyle.ComboboxSizeEdges | ayon_ui_qt/ayon_style.py:947-984 | no combo option gives Qt's invalid size; no icon and no text gives 0x0; an icon with available sizes and no widget size succeeds |
| StyleDispatch.EnumKeyInjective | client/ayon_ui_qt/ayon_style.py:109-130 | for one widget key, different elements give different registry keys |
| StyleDispatch.LaterRegistrationWins | client/ayon_ui_qt/ayon_style.py:1433-1440 | after the `dict.update` calls a key maps to the value of the last drawer that registers it, and to nothing if none does |
| StyleDispatch.BaseList | client/ayon_ui_qt/ayon_style.py:1424-1434 | one base class per drawer, in drawer order |
| StyleDispatch.BaseOrder | client/ayon_ui_qt/ayon_style.py:1433-1434 | with distinct names, the merged base-class table lists the drawers' base classes in drawer order |
| StyleDispatch.FirstBase | client/ayon_ui_qt/ayon_style.py:1444-1445 | the first base class from position `i` on that the widget inherits, and none exactly when no later one matches |
| StyleDispatch.WidgetKeyRule | client/ayon_ui_qt/ayon_style.py:1442-1459 | the key is the first matching base class's name, or `"QToolTip"` for a widget named `"qtooltip_label"` or a label whose parent widget has no layout |
| StyleDispatch.NoMatchKey | client/ayon_ui_qt/ayon_style.py:1442-1459 | a widget matching no base class gets `""` from both versions |
| StyleDispatch.LegacyWidgetKey | ayon_ui_qt/ayon_style.py:1041-1046 | the older loop returns the first matching base class's name, or `""` |
| StyleDispatch.LabelsBeforeFrames | ayon_ui_qt/ayon_style.py:1018-1046 | with labels registered before frames, a label (also a frame) is keyed `"QLabel"` and a plain frame `"QFrame"` |
| StyleDispatch.LabelTooltipRule | client/ayon_ui_qt/ayon_style.py:1442-1459 | in the newer style a label under a layout-less parent widget is keyed `"QToolTip"`, one under a laid-out parent `"QLabel"` |
| StyleDispatch.AyonStyle.constructor | client/ayon_ui_qt/ayon_style.py:1417-1440 | the base classes and the drawer, sizer and metric tables are each the in-order merge over the drawers |
| StyleDispatch.AyonStyle.WidgetKey | client/ayon_ui_qt/ayon_style.py:1442-1459 | the loop returns exactly the newer key rule over the registered base classes |
| StyleDispatch.AyonStyle.DrawControl | client/ayon_ui_qt/ayon_style.py:1496-1521 | no drawer: the parent style draws; a single drawer runs; a list runs each entry in order |
| StyleDispatch.AyonStyle.Lookup | client/ayon_ui_qt/ayon_style.py:1540-1652 | the parent style is used exactly when no handler is registered; otherwise the registered handler runs |
| StyleDispatch.PushButtonDrawOrder | client/ayon_ui_qt/ayon_style.py:264-290 | a push button runs the bevel drawer and then the label drawer; the same element on an unregistered key goes to the parent style |
| StyleDispatch.SizeFromContents | client/ayon_ui_qt/ayon_style.py:1654-1681 | a registered key runs exactly the sizer registered under it; otherwise the parent style with an option and 100x32 without one |
| StyleDispatch.SubControlRect | client/ayon_ui_qt/ayon_style.py:1591-1612 | the registered sizer's rectangle unless it raises `ValueError`; the parent style when there is none or it raised |
| WidgetTree.WidgetIds | client/ayon_ui_qt/components/qss_override.py:46-54 | the widgets of a child or layout-item list are exactly its entries that are widgets |
| WidgetTree.Collect | client/ayon_ui_qt/__init__.py:55-74 | the recursion only ever adds to the seen set |
| WidgetTree.CollectOnce | client/ayon_ui_qt/__init__.py:55-62 | each widget is appended at most once: the appended ids are distinct, were not seen before and are exactly what the seen set gains; a seen widget adds nothing |
| WidgetTree.CollectAllOnce | client/ayon_ui_qt/__init__.py:63-74 | the same for a list of children collected in turn |
| WidgetTree.CollectClosed | client/ayon_ui_qt/__init__.py:55-74 | the root ends up seen, and every collected widget has all its children and layout widgets seen |
| WidgetTree.CollectWithin | client/ayon_ui_qt/__init__.py:55-74 | everything collected lies in any set that holds the root and is closed under children and layout widgets: only reachable widgets are collected |
| WidgetTree.CollectTree | client/ayon_ui_qt/__init__.py:76-83 | from the single root and an empty seen set: the root comes first, nothing twice, the result is closed under children and layout widgets and lies in every closed set holding the root, so siblings appear only when reachable from the root |
| WidgetTree.CollectInGraph | client/ayon_ui_qt/components/qss_override.py:37-54 | every collected id is a widget of the graph |
| WidgetTree.Collector.constructor | client/ayon_ui_qt/__init__.py:80-81 | the seen set and the output list start empty |
| WidgetTree.Collector.CollectFrom | client/ayon_ui_qt/components/qss_override.py:37-54 | the recursive procedure appends to `out` and grows `seen` exactly as `Collect` describes |
| WidgetTree.Collector.CollectItems | client/ayon_ui_qt/components/qss_override.py:46-54 | the loops over children and layout items append exactly what `CollectAll` describes |
| WidgetTree.Restyle | client/ayon_ui_qt/__init__.py:96-99 | two events per collected widget |
| WidgetTree.RestyleOrder | client/ayon_ui_qt/__init__.py:96-99 | widget `k` is unpolished and then given the singleton style, widgets in collection order |
| WidgetTree.RestyleKeepsAppSheet | client/ayon_ui_qt/__init__.py:96-99 | restyling the widgets never touches the application stylesheet |
| WidgetTree.StyleLog | client/ayon_ui_qt/__init__.py:85-102 | with `fix_app` and a non-empty application stylesheet, the first event clears it and the last restores the same value; otherwise the stylesheet is never set |
| WidgetTree.Ui.constructor | client/ayon_ui_qt/__init__.py:27 | no style instance exists yet |
| WidgetTree.Ui.GetAyonStyle | client/ayon_ui_qt/__init__.py:30-39 | the style is constructed at most once; every later call returns the same instance |
| WidgetTree.Ui.StyleWidgetTree | client/ayon_ui_qt/__init__.py:42-102 | the events are exactly `StyleLog` over the widgets collected from the given widget alone, and the application stylesheet ends as it began |
| WidgetTree.WithoutPaintEventMembers | client/ayon_ui_qt/components/qss_override.py:65-67 | a widget gets the filter iff it was collected and has no `paintEvent` attribute |
| WidgetTree.Ui.InstallEventFilter | client/ayon_ui_qt/components/qss_override.py:57-67 | building the filter creates the style singleton when there is none yet (and reuses it otherwise); the filter is installed, in collection order, exactly on the collected widgets that lack `paintEvent` |
| WidgetTree.Ui.InstallOn | client/ayon_ui_qt/components/qss_override.py:65-67 | the loop installs the filter on exactly the listed widgets without `paintEvent`, in order |
| QssConverter.MatchRgb | css_to_qss_converter.py:149 | a match yields three non-empty digit groups |
| QssConverter.MatchRgba | css_to_qss_converter.py:155-157 | a match yields a non-empty alpha text of digits and dots |
| QssConverter.RgbRecognised | css_to_qss_converter.py:149 | every `rgb(r,<spaces>g,<spaces>b)` prefix is matched with its three numbers, whatever follows it (the pattern is anchored at the start only) |
| QssConverter.RgbaRecognised | css_to_qss_converter.py:155-157 | every `rgba(r,<spaces>g,<spaces>b,<spaces>a)` prefix is matched with its numbers and its alpha text |
| QssConverter.ConvertColor | css_to_qss_converter.py:145-175 | empty, `auto`, `none` and `transparent` are returned unchanged; any other result is the input, `transparent` or an `rgb(r, g, b)` text; an alpha that `float` refuses is an error |
| QssConverter.RgbTextFixed | css_to_qss_converter.py:149-152 | the emitted `rgb(r, g, b)` form converts to itself |
| QssConverter.ConvertColorIdempotent | css_to_qss_converter.py:145-175 | converting a converted colour changes nothing |
| QssConverter.RgbaRule | css_to_qss_converter.py:158-172 | an `rgba()` value: alpha 0 gives `transparent`, alpha 1 the `rgb()` form of its colour, any other alpha the value as written |
| QssConverter.RgbaZeroIsTransparent | css_to_qss_converter.py:161-162 | `rgba(r, g, b, 0)` becomes `transparent` |
| QssConverter.RgbaOneIsRgb | css_to_qss_converter.py:163-164 | `rgba(r, g, b, 1)` becomes `rgb(r, g, b)` |
| QssConverter.RgbaHalfKept | css_to_qss_converter.py:165-172 | `rgba(r, g, b, 0.5)` is kept as written |
| QssConverter.ShouldInclude | css_to_qss_converter.py:177-211 | a property is included iff its value is non-empty and not one of `auto`, `none`, `normal`, `0px`, `0`, `initial`, its name does not start with `webkit`, it is in the mapping and no ignore pattern matches it |
| QssConverter.CleanFontFamily | css_to_qss_converter.py:213-245 | a single family comes out double-quoted iff, stripped of its outer quote characters, it holds a space |
| QssConverter.QuotedListUnwrapped | css_to_qss_converter.py:225-234 | a family list wrapped in one pair of double quotes loses exactly that pair |
| QssConverter.StripQuoted | css_to_qss_converter.py:237 | stripping quote characters removes exactly the outer quotes of a quoted family |
| QssConverter.CleanFontFamilyIdempotent | css_to_qss_converter.py:236-245 | cleaning a single family twice is cleaning it once |
| QssConverter.QuotedFamilyFixed | css_to_qss_converter.py:236-245 | a double-quoted family with a space is left as it is |
| QssConverter.BorderLonghands | css_to_qss_converter.py:403-417 | the longhands of a border part are `border<side><part>` for the eight sides, in order |
| QssConverter.OptimizeGet | css_to_qss_converter.py:380-445 | optimising only deletes: every remaining entry is an input entry, and a key keeps its value unless it is dropped |
| QssConverter.ShorthandRemovesLonghands | css_to_qss_converter.py:382-417 | `padding` removes its four sides, `margin` its four sides, and `border<part>` its eight `border<side><part>` |
| QssConverter.DefaultsRemoved | css_to_qss_converter.py:419-443 | a colour-only `text-decoration` (`rgb(`, `#`, `transparent`), an `outline` containing `none` next to an outline colour and style, and an opacity of `"1"` are removed |
| QssConverter.DroppedMono | css_to_qss_converter.py:380-445 | popping keys never makes more keys redundant |
| QssConverter.OptimizeIdempotent | css_to_qss_converter.py:368-445 | optimising twice is optimising once |
| QssConverter.ShorthandNotDropped | css_to_qss_converter.py:413-417 | a border shorthand is never among the popped longhands, so the tests read the input's value |
| QssConverter.PopAll | css_to_qss_converter.py:384-390 | popping each listed key removes exactly those keys |
| QssConverter.PopLonghands | css_to_qss_converter.py:382-417 | the shorthand part, popping in place, removes exactly the redundant longhands |
| QssConverter.PopBorders | css_to_qss_converter.py:414-417 | the loop over border parts removes exactly the longhands of the parts whose shorthand is present |
| QssConverter.PopDefaults | css_to_qss_converter.py:419-443 | the last three steps remove exactly the redundant defaults |
| QssConverter.PopDecoration | css_to_qss_converter.py:419-427 | removes `text-decoration` exactly when it is only a colour |
| QssConverter.PopOutline | css_to_qss_converter.py:429-439 | removes `outline` exactly when colour and style are present and its value contains `none` |
| QssConverter.PopOpacity | css_to_qss_converter.py:441-443 | removes an opacity of `"1"` and nothing else |
| QssConverter.OptimizeProperties | css_to_qss_converter.py:368-445 | the in-place method computes exactly `Optimize` |
| QssConverter.AttrSelectorsConcat | css_to_qss_converter.py:467-469 | the attribute selectors of two part lists are those of each, in order |
| QssConverter.CompoundSelector | css_to_qss_converter.py:447-474 | the selector starts with the widget class and ends with the pseudo-state when one is given |
| QssConverter.NestedSelectorExtends | css_to_qss_converter.py:464-469 | appending a pair with a non-empty name and value appends `[name="value"]` |
| QssConverter.EmptyPartSkipped | css_to_qss_converter.py:467-469 | a pair with an empty name or value adds nothing |
| QssRules.EntryClean | css_to_qss_converter.py:316-364 | one converted entry keeps the result keyed by distinct QSS names with no value ending in `;` |
| QssRules.ConvertPropsClean | css_to_qss_converter.py:302-366 | the converted properties have distinct QSS names as keys and no value ending in `;` |
| QssRules.ConvertRejectsVariables | css_to_qss_converter.py:328-329 | a conversion that succeeds saw no unresolved `--name-` variable among the included values; one that does raises `ValueError` |
| QssRules.Included | css_to_qss_converter.py:316-325 | the entries the loop keeps: string values that pass `should_include_property` |
| QssRules.ConvertSkips | css_to_qss_converter.py:316-325 | skipped entries (non-strings, excluded properties) have no effect on the result |
| QssRules.AddFontPropsClean | css_to_qss_converter.py:332-350 | the properties a `font` shorthand expands to are mapped names, their values stripped of trailing `;` |
| QssRules.AddFontProperties | css_to_qss_converter.py:334-349 | the loop assigns exactly the font properties `AddFontProps` describes |
| QssRules.Converter.constructor | css_to_qss_converter.py:130-133 | the converter starts with the given ignore patterns and font parser |
| QssRules.Converter.SetIgnoreProps | css_to_qss_converter.py:716 | the ignore patterns become the file's list |
| QssRules.Converter.ConvertCssEntry | css_to_qss_converter.py:316-364 | one loop iteration computes exactly `ConvertEntry`: skip, raise on a variable, expand `font`, convert a colour, clean a family, store the value without trailing `;` |
| QssRules.Converter.ConvertCssProperties | css_to_qss_converter.py:302-366 | the method computes exactly `ConvertProps`, the loop followed by `_optimize_properties` |
| QssRules.PropertyOrderDistinct | css_to_qss_converter.py:522-581 | no property is listed twice in the preferred order |
| QssRules.SortSpec | css_to_qss_converter.py:592 | sorting distinct names gives a strictly increasing permutation |
| QssRules.SortedUnique | css_to_qss_converter.py:592 | strictly sorted lists with the same members are equal, so `sorted(set(...))` depends only on the set |
| QssRules.BodyKeysExactlyOnce | css_to_qss_converter.py:584-595 | the rule lists every property exactly once: the listed ones in the preferred order, then the others in increasing order |
| QssRules.FormatRuleEmpty | css_to_qss_converter.py:516-517 | a rule is empty exactly when there are no properties |
| QssRules.ListedLines | css_to_qss_converter.py:584-589 | one line per listed property present, in the preferred order, and the set of those properties |
| QssRules.UnaddedKeys | css_to_qss_converter.py:592 | the keys not yet added, in dictionary order |
| QssRules.KeyLines | css_to_qss_converter.py:593-595 | one `    prop: value;` line per key, in order |
| QssRules.FormatQssRule | css_to_qss_converter.py:503-600 | the method computes exactly `FormatRule`: `selector {`, the property lines, `}` and a blank line |
| QssRules.MergedPrecedence | css_to_qss_converter.py:640-645 | a property the selector sets takes the selector's converted value; any other keeps the parent's merged value |
| QssRules.StateRulesOwnProps | css_to_qss_converter.py:660-680 | a state rule is written only for a state with a pseudo-state and non-empty converted properties, and holds those properties only |
| QssRules.ProcessOneUnderWidget | css_to_qss_converter.py:631-695 | every rule and tweak one selector's walk records is keyed by a selector starting with the widget class |
| QssRules.ProcessFromUnderWidget | css_to_qss_converter.py:631-697 | the same for the walk over a selector's nested selectors |
| QssRules.EmptyMergedNoRule | css_to_qss_converter.py:648 | a selector whose merged properties are empty records no rule and no tweak of its own |
| QssRules.NoStatesOneRule | css_to_qss_converter.py:648-660 | under `no states`, or with no states, a selector with merged properties records exactly its own rule and tweak under its compound selector |
| QssRules.ChildSelectorExtends | css_to_qss_converter.py:632-637 | a nested selector's chain is its parent's chain extended by its own non-empty name and value |
| QssRules.Converter.AddStateRules | css_to_qss_converter.py:660-680 | the state loop computes exactly `StateRules` |
| QssRules.Converter.ProcessSelector | css_to_qss_converter.py:631-695 | one iteration of the walk computes exactly `ProcessOne` |
| QssRules.Converter.ProcessSelectorsRecursively | css_to_qss_converter.py:602-697 | the recursive walk computes exactly `ProcessSelectors` |
| Filter.SameFilterByKey | client/ayon_ui_qt/components/filter.py:54-62 | two items are the same filter iff their keys are equal, whatever their other fields |
| Filter.PopupHeight | client/ayon_ui_qt/components/filter.py:277-287 | an empty list keeps the current height; otherwise the height is `min(36 * count + 8, 300)` |
| Filter.SelectedKeys | client/ayon_ui_qt/components/filter.py:525-531 | a key is returned iff some selected item has it |
| Filter.SelectedKeysAppend | client/ayon_ui_qt/components/filter.py:525-531 | the selected keys follow item order |
| Filter.FirstWithKey | client/ayon_ui_qt/components/filter.py:497-500 | the position of the first item with the key, or none when no item has it |
| Filter.FirstOfUnique | client/ayon_ui_qt/components/filter.py:497-500 | with unique keys, an item is the first one with its key |
| Filter.TagOf | client/ayon_ui_qt/components/filter.py:576-591 | the tag takes the item's label, and its colour unless that is unset or empty, then the default colour |
| Filter.AddTag | client/ayon_ui_qt/components/filter.py:576-591 | afterwards exactly the old tag keys and the item's key have tags |
| Filter.RemoveTag | client/ayon_ui_qt/components/filter.py:593-604 | afterwards exactly the old tag keys other than the removed one have tags |
| Filter.SyncTagsKeys | client/ayon_ui_qt/components/filter.py:568-574 | after syncing, a key has a tag iff the last item with that key is selected |
| Filter.SyncTagsMatch | client/ayon_ui_qt/components/filter.py:568-574 | with unique keys the synced tags are exactly the selected keys |
| Filter.RemoveAtSelected | client/ayon_ui_qt/components/filter.py:497-502 | dropping item `i` drops its key from the selection, keeps every other key's state and keeps keys unique |
| Filter.FlipSelected | client/ayon_ui_qt/components/filter.py:516-520 | setting one item's state changes only its key's selection |
| Filter.SetFirst | client/ayon_ui_qt/components/filter.py:541-551 | the first `n` items take the new state, the rest are unchanged |
| Filter.AYFilter.constructor | client/ayon_ui_qt/components/filter.py:392-419 | the items as given, a tag for each key whose last item is selected, no signal emitted; valid when keys are unique |
| Filter.AYFilter.FindKey | client/ayon_ui_qt/components/filter.py:497-500 | the `for ... break` search finds `FirstWithKey` |
| Filter.AYFilter.AddFilter | client/ayon_ui_qt/components/filter.py:479-489 | an item equal by key to one present changes nothing; otherwise it is appended at the end and tagged iff selected; no signal; the tag/selection invariant is kept |
| Filter.AYFilter.RemoveFilter | client/ayon_ui_qt/components/filter.py:491-502 | only the first item with the key is removed, with its tag; the others stay in order; the invariant is kept |
| Filter.AYFilter.SetFilterSelected | client/ayon_ui_qt/components/filter.py:504-523 | an absent key or an unchanged state changes nothing; otherwise only the first matching item flips, its tag is added or removed, and `filter_added`/`filter_removed` then `filter_changed` are emitted |
| Filter.AYFilter.ClearSelection | client/ayon_ui_qt/components/filter.py:541-545 | with a valid filter every item ends deselected and nothing is selected |
| Filter.AYFilter.SelectAll | client/ayon_ui_qt/components/filter.py:547-551 | with a valid filter every item ends selected and the selected keys are all keys, in order |
| Filter.AYFilter.SetStep | client/ayon_ui_qt/components/filter.py:541-551 | one flip of those loops, through `set_filter_selected`, keeps the invariant |
| Filter.AYFilter.ToggleDropdown | client/ayon_ui_qt/components/filter.py:612-635 | the popup flag flips and nothing else changes |
| Filter.NoneSelected | client/ayon_ui_qt/components/filter.py:541-545 | with every item deselected no key is selected |
| Filter.AllSelected | client/ayon_ui_qt/components/filter.py:547-551 | with every item selected the selected keys are all keys |
| TagSelector.OrElse | client/ayon_ui_qt/components/tag_selector.py:396-398 | Python's `x or y`: `x` when it is a non-empty string, else `y` |
| TagSelector.ToTagData | client/ayon_ui_qt/components/tag_selector.py:391-400 | a `TagData` is kept; a dictionary is named by `"name"`, else `"text"`, else its `str()` text, and coloured by `"color"` or `#8b9198`; anything else becomes `TagData(str(tag))` |
| TagSelector.InsertByNameCount | client/ayon_ui_qt/components/tag_selector.py:401 | inserting adds exactly the one element |
| TagSelector.InsertSorted | client/ayon_ui_qt/components/tag_selector.py:401 | inserting into a list sorted by lower-cased name keeps it sorted |
| TagSelector.SortByNameSpec | client/ayon_ui_qt/components/tag_selector.py:401 | the result is a permutation of the input, sorted by lower-cased name |
| TagSelector.SortStable | client/ayon_ui_qt/components/tag_selector.py:401 | the sort is stable: tags with the same lower-cased name keep their input order |
| TagSelector.Normalize | client/ayon_ui_qt/components/tag_selector.py:380-401 | one `TagData` per input, a permutation of the converted inputs, sorted by lower-cased name |
| TagSelector.ColorOf | client/ayon_ui_qt/components/tag_selector.py:435-448 | a name with no tag gets `#8b9198`; otherwise the colour of a tag with that name (the last one, as the dictionary comprehension keeps it) |
| TagSelector.BadgesShape | client/ayon_ui_qt/components/tag_selector.py:425-456 | `min(n, max_visible)` name badges for the first selected names, in order, then one overflow badge reading `"+{n - max_visible}"` exactly when `n > max_visible` |
| TagSelector.AddName | client/ayon_ui_qt/components/tag_selector.py:487-489 | the name is present afterwards and nothing else is added |
| TagSelector.RemoveFirst | client/ayon_ui_qt/components/tag_selector.py:490-492 | an absent name changes nothing; otherwise exactly one occurrence is removed |
| TagSelector.ToggleNoDup | client/ayon_ui_qt/components/tag_selector.py:487-492 | toggling keeps the selected names distinct, and a deselected name is gone |
| TagSelector.AddThenRemove | client/ayon_ui_qt/components/tag_selector.py:487-492 | selecting an unselected name and deselecting it again gives the list back |
| TagSelector.KeepAvailable | client/ayon_ui_qt/components/tag_selector.py:557-562 | exactly the selected names that name an available tag are kept |
| TagSelector.KeepAvailableAppend | client/ayon_ui_qt/components/tag_selector.py:557-562 | the kept names stay in their selected order |
| TagSelector.AYTagSelector.constructor | client/ayon_ui_qt/components/tag_selector.py:347-377 | the tags are normalised, the selection is as given, the dropdown is closed and the badges match |
| TagSelector.AYTagSelector.UpdateBadges | client/ayon_ui_qt/components/tag_selector.py:425-456 | the badge row is rebuilt from the selection and nothing else changes |
| TagSelector.AYTagSelector.OnTagToggled | client/ayon_ui_qt/components/tag_selector.py:480-495 | a selected name is appended only if absent, a deselected one removed only if present; the badges are rebuilt and a copy of the list is emitted |
| TagSelector.AYTagSelector.OnAddNewTag | client/ayon_ui_qt/components/tag_selector.py:497-524 | a name already present ignoring case changes nothing; otherwise the tag is added with `#8b9198`, the list re-sorted by lower-cased name, the name selected and `tags_changed` emitted; an open dropdown ends closed, because `close()` emits no `closed` and the refresh through `_show_dropdown` then takes its closing branch |
| TagSelector.AYTagSelector.SetSelectedTags | client/ayon_ui_qt/components/tag_selector.py:538-546 | the selection becomes the given list, the badges follow and `tags_changed` is emitted |
| TagSelector.AYTagSelector.SetAvailableTags | client/ayon_ui_qt/components/tag_selector.py:548-563 | the tags are replaced by the normalised ones and only the selected names still available are kept, in order; no signal |
| TagSelector.AYTagSelector.ToggleDropdown | client/ayon_ui_qt/components/tag_selector.py:458-478 | an open dropdown closes, a closed one opens; the tags and selection are unchanged |
| TagSelector.DropdownHeight | client/ayon_ui_qt/components/tag_selector.py:310-326 | the height is `40 + rows + 4`, capped at 400 |
| TagSelector.FindIgnoringCase | client/ayon_ui_qt/components/tag_selector.py:254-258 | the first tag whose name equals the text ignoring case, and none exactly when no tag does |
| TagSelector.TagDropdown.constructor | client/ayon_ui_qt/components/tag_selector.py:130-230 | one row per tag name, checked iff selected, all visible; a lone placeholder row when there are no tags |
| TagSelector.TagDropdown.SearchChanged | client/ayon_ui_qt/components/tag_selector.py:232-245 | a row is visible iff the lower-cased, stripped query is empty or a substring of the lower-cased name; the height follows the visible rows |
| TagSelector.TagDropdown.EnterPressed | client/ayon_ui_qt/components/tag_selector.py:232-275 | blank input is ignored and changes nothing; a tag matching ignoring case is toggled with its selection and `tag_toggled` is emitted; otherwise `add_new_tag` is emitted; in both non-blank cases the field is cleared, its `textChanged("")` shows every row again and the height is recomputed for all rows |
| TagSelector.TagDropdown.TagClicked | client/ayon_ui_qt/components/tag_selector.py:277-290 | the selected set follows the clicked row's new state and `tag_toggled` is emitted |
| TagSelector.TagDropdown.Toggle | client/ayon_ui_qt/components/tag_selector.py:262-270 | a row's check state flips and the selected set follows it |
| TextBox.CategoryItems | client/ayon_ui_qt/components/text_box.py:252-272 | one item per category, in order, with the category's name as text and short text, the `crop_square` icon and its colour; the single "No category" item when the project has none |
| TextBox.FilenameLabel | client/ayon_ui_qt/components/text_box.py:363-372 | a name of at most 12 characters is shown whole; a longer one as its first 12 characters followed by `...` |
| TextBox.AttachmentWidget.constructor | client/ayon_ui_qt/components/text_box.py:280-286 | the widget keeps its index, filename and path, and its label is the shortened filename |
| TextBox.AttachmentWidget.UpdateContent | client/ayon_ui_qt/components/text_box.py:374-380 | an empty argument keeps the current value, a non-empty one replaces it; the label follows the filename |
| TextBox.FindPair | client/ayon_ui_qt/components/text_box.py:740-746 | the first annotation with the given file pattern and frame, and none exactly when no annotation has them |
| TextBox.AddAnnotation | client/ayon_ui_qt/components/text_box.py:740-771 | the added attachment is in the list afterwards |
| TextBox.AddAnnotationSpec | client/ayon_ui_qt/components/text_box.py:740-771 | adding keeps (file pattern, frame) pairs unique, loses no pair, grows the list by at most one, and the added pair carries exactly the new path, filename and timestamp |
| TextBox.AddAnnotationsSpec | client/ayon_ui_qt/components/text_box.py:722-773 | after adding a batch, pairs stay unique, every input's pair is present, no earlier pair is lost, and the last input's pair carries that input's data |
| TextBox.NoPatternCollapses | client/ayon_ui_qt/components/text_box.py:733-734 | two inputs without a file pattern and frame default to the same pair (`""`, 0), so the second replaces the first |
| TextBox.AddFilesSpec | client/ayon_ui_qt/components/text_box.py:775-792 | the old files stay as a prefix, the list holds exactly the old and the new paths, and it stays free of duplicates, also when a batch repeats a path |
| TextBox.AYTextBox.constructor | client/ayon_ui_qt/components/text_box.py:409-434 | the `show_categories` flag is kept; the "No category" item is the only one and is chosen; both attachment lists are empty |
| TextBox.AYTextBox.AddAnnotationAttachments | client/ayon_ui_qt/components/text_box.py:722-773 | the annotation list becomes the batch folded in, input by input, and nothing else changes |
| TextBox.AYTextBox.AddFileAttachments | client/ayon_ui_qt/components/text_box.py:775-797 | new paths are appended in order, known paths skipped, and the file display is rebuilt once exactly when something was added |
| TextBox.AYTextBox.OnAnnotationRemoved | client/ayon_ui_qt/components/text_box.py:561-570 | an index in range removes that annotation and keeps the others in order; any other index changes nothing |
| TextBox.AYTextBox.OnFileRemoved | client/ayon_ui_qt/components/text_box.py:572-576 | an index in range removes that file and rebuilds the display; any other index changes nothing |
| TextBox.AYTextBox.OnCommentClicked | client/ayon_ui_qt/components/text_box.py:529-537 | `comment_submitted` carries the markdown, the category and the file list as they were; both attachment lists are then empty |
| TextBox.AYTextBox.ClearAnnotationAttachments | client/ayon_ui_qt/components/text_box.py:799-802 | the annotation list is empty and nothing else changes |
| TextBox.AYTextBox.ClearFileAttachments | client/ayon_ui_qt/components/text_box.py:804-807 | the file list is empty, its display rebuilt once, and nothing else changes |
| TextBox.AYTextBox.OnCategoryChanged | client/ayon_ui_qt/components/text_box.py:546-547 | the chosen category becomes the given text and nothing else changes |
| TextBox.AYTextBox.OnProjectChanged | client/ayon_ui_qt/components/text_box.py:826-833 | the category items are rebuilt from the project's categories; with the combo box shown the first item's text becomes the chosen category (the box's fresh model selects its first item and `currentTextChanged` reports it), otherwise the chosen category is kept; the attachments are kept |
| LegacyTextBox.AddAttachmentsSpec | ayon_ui_qt/components/text_box.py:458-489 | the old attachments stay as a prefix, filenames stay distinct, every input's filename (`""` when missing) ends up stored, and nothing else is added |
| LegacyTextBox.AddAttachmentsKnown | ayon_ui_qt/components/text_box.py:470-473 | a batch whose filenames are all stored already changes nothing |
| LegacyTextBox.AddAttachmentsIdempotent | ayon_ui_qt/components/text_box.py:458-489 | adding the same batch twice gives the same list as adding it once |
| LegacyTextBox.AYTextBox.constructor | ayon_ui_qt/components/text_box.py:320-335 | the `show_categories` flag is kept; the "No category" item is the only one and is chosen; no attachments |
| LegacyTextBox.AYTextBox.AddAttachmentsTo | ayon_ui_qt/components/text_box.py:458-489 | the list becomes the batch folded in, known filenames skipped, and the display is rebuilt once exactly when something was added |
| LegacyTextBox.AYTextBox.OnAttachmentRemoved | ayon_ui_qt/components/text_box.py:419-423 | an index in range removes that attachment and keeps the rest in order; any other index changes nothing |
| LegacyTextBox.AYTextBox.OnCommentClicked | ayon_ui_qt/components/text_box.py:409-414 | `comment_submitted` carries the markdown and the category; the attachments are then empty |
| LegacyTextBox.AYTextBox.ClearAttachments | ayon_ui_qt/components/text_box.py:491-494 | the attachments are empty and the display is rebuilt once |
| LegacyTextBox.AYTextBox.OnCategoryChanged | ayon_ui_qt/components/text_box.py:416-417 | the chosen category becomes the given text and nothing else changes |
| LegacyTextBox.AYTextBox.OnProjectChanged | ayon_ui_qt/components/text_box.py:505-512 | the category items are rebuilt from the project's categories and the chosen category and the attachments are kept; with the combo box shown the call raises `TypeError`, because this combo box's `update_items` takes no list |
| WebMarkdown.FindClose | client/ayon_ui_qt/components/comment_completion.py:325 | the lazy `.+?` stops at the first closing delimiter at or after the position, and fails when a newline comes before any |
| WebMarkdown.PairAt | client/ayon_ui_qt/components/comment_completion.py:325 | a match of `d(.+?)d` opens with the delimiter at the position and closes with it after a non-empty content |
| WebMarkdown.FindLinkEnd | client/ayon_ui_qt/components/comment_completion.py:343 | a found link end is a `](` followed by a non-empty url and a `)` |
| WebMarkdown.LinkAt | client/ayon_ui_qt/components/comment_completion.py:343 | a match of the link pattern starts with `[`, has a non-empty text, then `](`, a non-empty url and `)` |
| WebMarkdown.H1At | client/ayon_ui_qt/components/comment_completion.py:316 | a heading match starts at a line start and its text ends at a newline followed by at least two dashes |
| WebMarkdown.PairSpans | client/ayon_ui_qt/components/comment_completion.py:325-331 | a bold, italic or code entry's span is its delimiter, its content, its delimiter |
| WebMarkdown.ScanPairsSpec | client/ayon_ui_qt/components/comment_completion.py:325-349 | every bold, italic or code entry spans its delimited content, and the entries of one kind come in text order without overlapping |
| WebMarkdown.LinkSpans | client/ayon_ui_qt/components/comment_completion.py:343-350 | a link entry's span is `[`, its text, `](`, its url, `)` |
| WebMarkdown.ScanLinksSpec | client/ayon_ui_qt/components/comment_completion.py:343-350 | every link entry spans its text and url, and links come in text order without overlapping |
| WebMarkdown.ScanH1Spec | client/ayon_ui_qt/components/comment_completion.py:316-322 | every heading entry spans its text, a newline and the dashes, and headings come in text order without overlapping |
| WebMarkdown.ParseSpec | client/ayon_ui_qt/components/comment_completion.py:301-361 | every entry spans its delimited content; the kinds come in the order heading, bold, italic, link, code, each kind in text order without overlapping |
| WebMarkdown.InsertAsc | client/ayon_ui_qt/components/comment_completion.py:464 | inserting adds exactly the one entry |
| WebMarkdown.InsertDesc | client/ayon_ui_qt/components/comment_completion.py:385 | inserting adds exactly the one entry |
| WebMarkdown.SortByStart | client/ayon_ui_qt/components/comment_completion.py:385 | the sort is a permutation of the entries |
| WebMarkdown.SortByStartSorted | client/ayon_ui_qt/components/comment_completion.py:385 | the sort orders the entries by start, descending when `reverse=True` and ascending otherwise |
| WebMarkdown.SortDescIsRevAsc | client/ayon_ui_qt/components/comment_completion.py:385 | with distinct starts the descending sort is the ascending sort reversed |
| WebMarkdown.StripLast | client/ayon_ui_qt/components/comment_completion.py:391-413 | removing the syntax of ordered spans from the last one down: the earlier text with its spans removed, the last span's content, then the rest of the text |
| WebMarkdown.StripLength | client/ayon_ui_qt/components/comment_completion.py:391-413 | the plain text is shorter than the markdown by exactly the syntax characters of the spans |
| WebMarkdown.Ranges | client/ayon_ui_qt/components/comment_completion.py:467-495 | one range per entry |
| WebMarkdown.RangesAt | client/ayon_ui_qt/components/comment_completion.py:467-495 | each range starts at the entry's start less every syntax character before it, and is as long as the content |
| WebMarkdown.RangesLocate | client/ayon_ui_qt/components/comment_completion.py:463-495 | for ordered, non-overlapping spans, each range covers exactly its span's content in the plain text |
| WebMarkdown.SortAscNoOverlap | client/ayon_ui_qt/components/comment_completion.py:464 | the ascending sort keeps spans from overlapping |
| WebMarkdown.ParseProper | client/ayon_ui_qt/components/comment_completion.py:301-361 | each parsed span is longer than its content and lies within the text |
| WebMarkdown.PlainTextRanges | client/ayon_ui_qt/components/comment_completion.py:382-495 | when no two parsed spans overlap, each range of the formatting list covers exactly its span's content in the plain text |
| WebMarkdown.RemoveSyntax | client/ayon_ui_qt/components/comment_completion.py:391-413 | the plain text is the spans replaced by their content in the order given |
| WebMarkdown.FormatList | client/ayon_ui_qt/components/comment_completion.py:467-495 | the loop builds the formatting list as written: each range starts at the span's start less the offset, and a link grows the offset by its text, its url and 4 |
| WebMarkdown.ApplyWebMarkdown | client/ayon_ui_qt/components/comment_completion.py:364-495 | the plain text is the markdown with its syntax removed from the highest start down; the formatting list is the one the code builds, with the link offset as written; with no overlap and no link each range covers its span's content in the plain text |
| WebMarkdown.RangesAsWritten | client/ayon_ui_qt/components/comment_completion.py:467-495 | one range per entry, with the offset as written |
| WebMarkdown.RangesAsWrittenAgree | client/ayon_ui_qt/components/comment_completion.py:476-495 | for spans of the text with no link among them, the list as written equals the corrected list |
| WebMarkdown.SyntaxLenByKind | client/ayon_ui_qt/components/comment_completion.py:476-493 | the written syntax length agrees with the span's syntax for every kind but links, whose written length is too large by the link text |
| WebMarkdown.ScanH1OneLine | client/ayon_ui_qt/components/comment_completion.py:316 | a text without a newline has no heading |
| WebMarkdown.ExampleParse | client/ayon_ui_qt/components/comment_completion.py:301-361 | `[a](u) **b**` parses to the bold span at 7-12, then the link at 0-6 |
| WebMarkdown.ExampleStrip | client/ayon_ui_qt/components/comment_completion.py:391-413 | removing the syntax of `[a](u) **b**` gives `a b` |
| WebMarkdown.RangesTwo | client/ayon_ui_qt/components/comment_completion.py:467-495 | the second range lies after the first entry's syntax length: the written one by the written length, the corrected one by the span's syntax |
| WebMarkdown.LinkOffsetAsWritten | client/ayon_ui_qt/components/comment_completion.py:488-490 | for `[a](u) **b**` the bold range as written is 1-2, the space, while the corrected range is 2-3, the bold `b` |
| Completion.CompleterNames | client/ayon_ui_qt/components/comment_completion.py:111-122 | the completer lists the users' full names, or the single "not available" placeholder when there are none |
| Completion.MatchingRows | client/ayon_ui_qt/components/comment_completion.py:127-129 | the popup rows are exactly the names that contain the prefix ignoring case |
| Completion.TextChanged | client/ayon_ui_qt/components/comment_completion.py:164-205 | nothing happens without a completer or when read-only; a shown popup's prefix is the text between the last '@' before the cursor and the cursor, empty or not starting with whitespace; the popup hides only when that text starts with whitespace or there is no '@' |
| Completion.TextChangedShown | client/ayon_ui_qt/components/comment_completion.py:180-194 | the popup is shown exactly when some '@' before the cursor has no '@' after it up to the cursor and is followed by the cursor or a non-whitespace character |
| Completion.PopupGeometry | client/ayon_ui_qt/components/comment_completion.py:208-236 | the popup is four rows high, as wide as the editor, at its left edge, and its bottom edge is the editor's top edge |
| Completion.Activate | client/ayon_ui_qt/components/comment_completion.py:249-257 | nothing happens exactly when there is no '@' before the cursor |
| Completion.ActivateSpec | client/ayon_ui_qt/components/comment_completion.py:255-266 | the text before the last '@' and after the cursor is kept, `@` and the name replace what is between, and the cursor ends after the name |
| Completion.ActivateThenShown | client/ayon_ui_qt/components/comment_completion.py:164-266 | after choosing a name with no '@' that does not start with whitespace, the text-changed rule sees that name as the prefix at the same '@' |
| Completion.UserAt | client/ayon_ui_qt/components/comment_completion.py:583 | a user match is at least an '@' and one word character long |
| Completion.UserAtShape | client/ayon_ui_qt/components/comment_completion.py:583 | a user match is '@' and a word, or '@', a word, a space and a word |
| Completion.LinkAt | client/ayon_ui_qt/components/comment_completion.py:584 | a link match starts with `[` and ends with `)` |
| Completion.RawLinkAt | client/ayon_ui_qt/components/comment_completion.py:585 | a raw-link match is at least `http://` long |
| Completion.MatchAt | client/ayon_ui_qt/components/comment_completion.py:583-587 | a match starts at the position and is non-empty |
| Completion.ScanSpec | client/ayon_ui_qt/components/comment_completion.py:587 | the matches lie within the text, follow each other without overlapping, and each is what the pattern gives at its start |
| Completion.BracketGroup | client/ayon_ui_qt/components/comment_completion.py:623 | a found bracket group lies strictly inside the value |
| Completion.PaintOne | client/ayon_ui_qt/components/comment_completion.py:597-627 | a user or raw-link range is taken from the markdown as it is; a link range is shifted back by the extra characters and covers the link name, and the extra count grows by the rest of the link plus one; a link without a bracket group raises |
| Completion.Paints | client/ayon_ui_qt/components/comment_completion.py:596-627 | one painted range per match when no step raises, and never more ranges than matches |
| Completion.PaintsFailure | client/ayon_ui_qt/components/comment_completion.py:596-627 | the painting loop raises exactly when some match is a link whose value has no bracketed group |
| Completion.PaintAll | client/ayon_ui_qt/components/comment_completion.py:596-627 | the loop over the matches paints them in order, stopping at the first link without a bracketed group, as the painting specification says |
| Completion.MentionPaint | client/ayon_ui_qt/components/comment_completion.py:601-613 | a mention range starts at the '@'; it covers the match for a known full name, and otherwise the match less its last word |
| Completion.OneWordPaint | client/ayon_ui_qt/components/comment_completion.py:608-611 | an unknown one-word mention paints an empty range |
| Completion.TwoWordPaint | client/ayon_ui_qt/components/comment_completion.py:608-611 | an unknown two-word mention paints the '@', the first word and the space |
| Completion.CommentField.constructor | client/ayon_ui_qt/components/comment_completion.py:99-142 | a new field has no completer, a hidden popup, no painted ranges and unblocked signals |
| Completion.CommentField.SetupCompleter | client/ayon_ui_qt/components/comment_completion.py:99-142 | the completer exists and lists the users or the placeholder; nothing else changes |
| Completion.CommentField.UsersUpdated | client/ayon_ui_qt/components/comment_completion.py:145-161 | the users are replaced; the completer's names follow only when a completer exists |
| Completion.CommentField.OnTextChanged | client/ayon_ui_qt/components/comment_completion.py:164-205 | the popup and its prefix follow the text-changed rule; a shown popup's current row is reset by the new prefix, and the first row is selected exactly when it is the only match; the text is left alone |
| Completion.CommentField.SetText | client/ayon_ui_qt/components/comment_completion.py:142 | a user edit sets the cursor's block and position and nothing else, ahead of the `textChanged` handlers |
| Completion.CommentField.OnActivated | client/ayon_ui_qt/components/comment_completion.py:239-269 | the block and the cursor become the activation's result and the popup hides; without an '@' before the cursor nothing changes |
| Completion.CommentField.KeyPress | client/ayon_ui_qt/components/comment_completion.py:272-298 | the key is handled exactly when Return or Enter hits a visible popup with a current row, and then that row's name is activated |
| Completion.CommentField.FormatOnChange | client/ayon_ui_qt/components/comment_completion.py:555-630 | the painted ranges are those of the matches in order; when a link has no bracket group the loop stops and the document's signals stay blocked |
| Comment.LastDef | client/ayon_ui_qt/components/comment.py:53-56 | none exactly when no definition has the text; otherwise the last definition with it |
| Comment.StatusTableGet | client/ayon_ui_qt/components/comment.py:53-56 | the dictionary built from the definitions finds, for each text, the last definition with that text |
| Comment.StatusIconSpec | client/ayon_ui_qt/components/comment.py:52-68 | a status no definition names gets `shield_question` in `#d05050`; a named one gets the icon and colour of its last definition; the built-in statuses stand in when none are given |
| Comment.SpanDetected | client/ayon_ui_qt/components/comment.py:248-250 | a bold, italic, link or code span, or a heading underlined by at least four dashes, holds one of the markers the test looks for |
| Comment.WebSpansDetected | client/ayon_ui_qt/components/comment.py:237-257 | every such span the web reader finds sends the text to the web reader |
| Comment.ShortHeadingMissed | client/ayon_ui_qt/components/comment.py:248-250 | `a` underlined by two dashes is a heading to the web reader, yet the text goes to the standard reader |
| Comment.ImageCount | client/ayon_ui_qt/components/comment.py:624-630 | at most one image per file |
| Comment.TruncDiv | client/ayon_ui_qt/components/comment.py:634 | `int(a / n)`: the quotient truncated toward zero |
| Comment.ImageWidth | client/ayon_ui_qt/components/comment.py:631-637 | at least 100; above that, the widest width at which the images and their 4-pixel gaps fit the text width |
| Comment.AttachmentsSpec | client/ayon_ui_qt/components/comment.py:600-657 | the build reaches the end exactly when every non-transparent file exists, then shows one image per non-transparent file, in order, each as wide as asked; in every case the images are those of the non-transparent files, in order, up to the first file whose path is missing, which stops the build |
| Comment.NonTransparent | client/ayon_ui_qt/components/comment.py:601-610 | the files no annotation names as transparent: as many as `ImageCount` counts, and a file is among them exactly when it is one of the files and not transparent |
| Comment.ImagesOf | client/ayon_ui_qt/components/comment.py:612-657 | one image per file, the i-th showing the i-th file's local path at the given width |
| Comment.AttachmentsImages | client/ayon_ui_qt/components/comment.py:600-618 | the images built are a prefix of those of the non-transparent files, all of them when the build completes, and otherwise cut just before a non-transparent file whose path is missing |
| Comment.AttachmentsFirst | client/ayon_ui_qt/components/comment.py:600-618 | a missing first non-transparent file ends the build with no image; an existing one is the first image |
| Comment.AYComment.constructor | client/ayon_ui_qt/components/comment.py:446-470 | read-only, not editing, the comment's markdown shown through the reader the test picks, and the images built at the text field's width |
| Comment.AYComment.GetBgColor | client/ayon_ui_qt/components/comment.py:472-479 | a stored non-empty colour is returned unchanged; otherwise the base, blended with the category colour when there is one, is stored and returned |
| Comment.AYComment.SetMarkdown | client/ayon_ui_qt/components/comment.py:237-257 | the text is shown, through the web reader exactly when it holds a marker; nothing else changes |
| Comment.AYComment.ShowEditButtons | client/ayon_ui_qt/components/comment.py:698-706 | while the field is editable nothing changes; otherwise the edit buttons follow the state |
| Comment.AYComment.EditComment | client/ayon_ui_qt/components/comment.py:664-670 | the field becomes writable, Save and Cancel show and the edit buttons hide |
| Comment.AYComment.CancelEdit | client/ayon_ui_qt/components/comment.py:672-678 | read-only again, Save and Cancel hidden, the stored comment shown again and the edit buttons back |
| Comment.AYComment.SaveEdit | client/ayon_ui_qt/components/comment.py:680-686 | read-only again, the field's markdown stored as the comment and `comment_edited` emitted with it |
| Comment.AYComment.ConfirmDelete | client/ayon_ui_qt/components/comment.py:688-696 | `comment_deleted` is emitted exactly when the user answers Yes; nothing else changes |
| Comment.NamedTransparent | client/ayon_ui_qt/components/comment.py:603-608 | the loop finds the file exactly when some annotation names it as transparent |
| Comment.BuildImageAttachments | client/ayon_ui_qt/components/comment.py:589-662 | nothing without files; otherwise the images of the attachment rule, at the width rule's width, stopping at the first missing file |
| ImageCache.Target | ayon_ui_qt/image_cache.py:242 | the eviction target is 90% of the maximum, rounded down |
| ImageCache.CacheSizeConcat | ayon_ui_qt/image_cache.py:272-286 | the cache size is the sum of the entries' sizes, part by part |
| ImageCache.HitKeepsSize | ayon_ui_qt/image_cache.py:163-173 | a cache hit changes only the access data of its entry, so the cache size stays the same |
| ImageCache.MissingKeys | ayon_ui_qt/image_cache.py:123-141 | the collected keys are exactly those whose file does not exist |
| ImageCache.ValidatedSpec | ayon_ui_qt/image_cache.py:123-141 | validation keeps exactly the entries whose file exists, unchanged, and the metadata stays a dictionary |
| ImageCache.ValidatedExist | ayon_ui_qt/image_cache.py:123-141 | after validation every entry's file exists |
| ImageCache.SortByTimeSpec | ayon_ui_qt/image_cache.py:250-253 | the sorted entries are in `last_accessed` order and are exactly the dictionary's entries |
| ImageCache.EvictFromSpec | ayon_ui_qt/image_cache.py:255-270 | the loop stops at the target or at the end, visits only while the size is above the target, deletes exactly the files of the visited entries, and lowers the size only for files that existed |
| ImageCache.EvictLeastRecent | ayon_ui_qt/image_cache.py:234-270 | every evicted entry was accessed no later than every entry kept, and the kept entries come from the old metadata |
| ImageCache.EvictStateSpec | ayon_ui_qt/image_cache.py:234-270 | within the limit nothing changes; above it, eviction ends at or below 90% unless it ran out of entries, and deletes only the visited entries' files |
| ImageCache.OversizedEntryEvicted | ayon_ui_qt/image_cache.py:203-218 | a file larger than the whole cache, cached into an empty cache, is evicted at once: no entry and no file remain, while `get` returns its path |
| ImageCache.Cache.constructor | ayon_ui_qt/image_cache.py:78-121 | the directory is the given path when non-empty, else the temporary one; the limit is the size in MB times 1024 * 1024; the saved metadata is loaded and validated |
| ImageCache.Cache.ValidateCacheFiles | ayon_ui_qt/image_cache.py:123-141 | the metadata loses exactly the entries whose file is missing |
| ImageCache.Cache.GetCacheSize | ayon_ui_qt/image_cache.py:272-286 | the sum over the entries of the file's size when it exists, else the recorded size |
| ImageCache.Cache.EvictIfNeeded | ayon_ui_qt/image_cache.py:234-270 | the metadata and the files become the eviction of the old ones |
| ImageCache.Cache.Get | ayon_ui_qt/image_cache.py:143-218 | an empty key raises; a hit whose file exists counts the access and returns its path; otherwise the entry is dropped, a loader path that does not exist raises, and a loaded file is copied, recorded with one access and followed by eviction |
| ImageCache.Registry.GetInstance | ayon_ui_qt/image_cache.py:43-67 | a non-positive size raises on every call; the first accepted call creates the cache, later ones return that same cache whatever their arguments |
| Payload.Str | ayon_ui_qt/utils.py:65-69 | `str()` of a string is the string, of anything else its printed form |
| Payload.DotGet | ayon_ui_qt/utils.py:40-49 | `.get` fails exactly on a value that is not a dictionary, gives the stored value for a present key and the default otherwise |
| Payload.Subscript | ayon_ui_qt/utils.py:30 | `KeyError` exactly for a dictionary without the key, another error exactly for a non-dictionary, and the stored value otherwise |
| Payload.Iterate | ayon_ui_qt/utils.py:39 | iterating fails exactly on a value that is not a list, dictionary or string; a list gives its items, and the count matches the container |
| Payload.UsersFrom | ayon_ui_qt/utils.py:35 | the user table builds exactly when every record is a dictionary with a hashable `short_name` |
| Payload.UsersFromHas | ayon_ui_qt/utils.py:35 | every record is found under its short name |
| Payload.UsersFromLast | ayon_ui_qt/utils.py:35 | what is found under a short name is the last record with it |
| Payload.FullName | ayon_ui_qt/utils.py:48 | an unhashable name raises `TypeError`; an unknown name is its own full name; a known one gives the record's `full_name`, defaulting to the name |
| Payload.ActivityData | ayon_ui_qt/utils.py:40-43 | `activityData`, defaulting to an empty dictionary, is used as it is unless it is a string; a string gives exactly its decoded value, and a `DecodeError` exactly when it does not decode |
| Payload.Author | ayon_ui_qt/utils.py:47-48 | the user name is the author's `name`, defaulting to "Not available", and the full name comes from the user table |
| Payload.PublishModel | ayon_ui_qt/utils.py:60-73 | a version-publish model takes the text of `origin.name` and `context.productName`, each defaulting to "Not available" |
| Payload.StatusModel | ayon_ui_qt/utils.py:74-86 | a status-change model takes the text of `oldValue` and `newValue`; product and version are "Not available" |
| Payload.Process | ayon_ui_qt/utils.py:39-86 | a non-dictionary activity raises; a model is made exactly for the comment, version-publish and status-change types, of the activity's own type; a comment takes `body` and `updatedAt` |
| Payload.ShownKinds | ayon_ui_qt/utils.py:51-86 | only types that give a model are listed |
| Payload.ModelsKinds | ayon_ui_qt/utils.py:37-88 | exactly one model per activity of a shown type, in input order, and none for the others |
| Payload.ModelsPrefixErr | ayon_ui_qt/utils.py:39-86 | once an activity raises, the whole call raises the same exception |
| Payload.Preprocess | ayon_ui_qt/utils.py:29-33 | a missing `project`, or a project without `activities`, gives no models |
| Payload.ModelsSnocOk | ayon_ui_qt/utils.py:39-86 | one more activity appends its model, if any, after the others |
| Payload.ModelsSnocErr | ayon_ui_qt/utils.py:39-86 | one more activity that raises makes the whole list raise the same |
| Payload.ModelsLoop | ayon_ui_qt/utils.py:37-88 | the loop's list is one model per shown activity, in order (`Models`), or the first exception raised |
| Payload.PreprocessPayload | ayon_ui_qt/utils.py:11-88 | no models for a missing `project` or `activities`; otherwise the user table, then one model per shown activity in order, or the first exception raised, exactly as `Preprocess` defines |
| DetailPanel.StatusItemOf | detail_panel.py:161-169 | a status becomes the item `{text, short_text, icon, color}` from its `name`, `shortName`, `icon` and `color` exactly when it has all four; otherwise the first missing key, in that order, raises `KeyError` |
| DetailPanel.StatusItems | detail_panel.py:158-170 | one item per status, in order, exactly when every status has the four keys; otherwise the `KeyError` of the first status that lacks one |
| DetailPanel.MissingStatusesItem | detail_panel.py:24-33 | without statuses in the anatomy the only item is "No Project" (`NPR`, `question_mark`, `#9B7C76`) |
| DetailPanel.PathText | detail_panel.py:243-250 | the path's segments are those of the project name, then the folder path, then the version's `task_name` |
| DetailPanel.PathSegments | detail_panel.py:243-250 | with no `/` inside the three names, the path has exactly those three segments |
| DetailPanel.ProductText | detail_panel.py:252-255 | the product name, or "Not available" when it is empty |
| DetailPanel.StatusCombo.constructor | detail_panel.py:176-183 | the combo box holds the items and shows the first, with signals unblocked |
| DetailPanel.StatusCombo.BlockSignals | detail_panel.py:63-74 | signals are blocked or unblocked and nothing else changes |
| DetailPanel.StatusCombo.UpdateItems | client/ayon_ui_qt/components/combo_box.py:137-140 | a non-empty list replaces the items and the first becomes current; an empty list keeps the items |
| DetailPanel.StatusCombo.SetCurrentIndex | detail_panel.py:234 | an index in range makes that item current; any other changes nothing; no signal while blocked |
| DetailPanel.StatusCombo.SetCurrentText | detail_panel.py:241 | only the text of an item can become current; no signal while blocked |
| DetailPanel.AYDetailPanel.constructor | detail_panel.py:109-125 | unset project and version, the single "No Project" status current, the entity path at its initial path, the product label "product name" |
| DetailPanel.AYDetailPanel.UpdateStatusItems | detail_panel.py:231-234 | the items come from the project's statuses and the first is current, without a signal; a `KeyError` leaves the items and the combo box's signals blocked |
| DetailPanel.AYDetailPanel.UpdateStatus | detail_panel.py:236-241 | a non-empty version status that is an item's text becomes current, without a signal; otherwise nothing changes |
| DetailPanel.AYDetailPanel.UpdateEntityPath | detail_panel.py:243-250 | the entity path widget gets `project/folder/task` and shows its normalised segments |
| DetailPanel.AYDetailPanel.UpdateProductName | detail_panel.py:252-255 | the product label follows the version's product name |
| DetailPanel.AYDetailPanel.OnProjectChanged | detail_panel.py:257-261 | the project is stored; a failed status lookup (missing key) leaves the combo box blocked and unchanged; otherwise a non-empty status list replaces the items and its first becomes current, and an empty one re-selects the first old item |
| DetailPanel.AYDetailPanel.OnVersionStatusChanged | detail_panel.py:263-267 | the version's status is replaced and selected when it is an item, without a signal; an empty status or one no item has leaves the current item as it was |
| DetailPanel.AYDetailPanel.OnVersionDataChanged | detail_panel.py:269-276 | the version is stored; its status is selected when it is an item, and otherwise the current item stays; the entity path and the product label follow the version |
| ActivityStream.VisibleSound | activity_stream.py:220-222 | only activities the category matches, taken from the list, at most as many as given |
| ActivityStream.VisibleComplete | activity_stream.py:220-222 | every activity the category matches is shown |
| ActivityStream.VisibleAll | activity_stream.py:221 | `"all"` shows the whole list, unchanged |
| ActivityStream.VisibleAppend | activity_stream.py:220-222 | filtering keeps the list's order: it distributes over concatenation |
| ActivityStream.Views | activity_stream.py:223-240 | one widget per activity, in order, of the activity's own kind |
| ActivityStream.ViewsAppend | activity_stream.py:220-241 | the widgets keep the activities' order |
| ActivityStream.BuildViews | activity_stream.py:220-241 | the loop builds one widget per matching activity, in the list's order |
| ActivityStream.FindCategory | activity_stream.py:246-247 | the first category with the name, and none exactly when no category has it |
| ActivityStream.Submitted | activity_stream.py:245-260 | an unknown category raises `ValueError` naming it first, then a missing current user; otherwise a comment by the current user with the markdown, the category and its colour |
| ActivityStream.IndexOf | activity_stream.py:274-281 | the first position holding the value, and none exactly when it is absent |
| ActivityStream.RemoveFirstSpec | activity_stream.py:284 | `list.remove` takes away exactly one occurrence and nothing else |
| ActivityStream.AYActivityStream.constructor | activity_stream.py:69-97 | unset project and version, no activities, and only the stretch shown (an empty form in the details view); every method keeps the invariant that the last shown item is the form in the details view and the stretch otherwise |
| ActivityStream.AYActivityStream.UpdateStream | activity_stream.py:194-243 | the details view shows the attribute form and keeps the stored activities; any other view shows the matching activities in order, then the stretch, and stores the list |
| ActivityStream.AYActivityStream.ClearStream | activity_stream.py:191-192 | the current view over an empty list: only the stretch, or the form in the details view |
| ActivityStream.AYActivityStream.OnViewChanged | activity_stream.py:267-269 | the new view over the stored activities: the version's attribute form in the details view, otherwise the matching activities then the stretch |
| ActivityStream.AYActivityStream.OnCommentSubmitted | activity_stream.py:245-265 | on success the new comment's widget goes just before the last item and the comment is appended to the activities; on failure nothing changes |
| ActivityStream.AYActivityStream.OnCommentDeleted | activity_stream.py:271-286 | the last shown item (stretch, or form in the details view) is kept; the first widget of an equal comment is removed, with the first equal activity, and `comment_deleted` is emitted whether or not one was found; a matched comment missing from the activities makes `list.remove` raise after the widget is gone and before the signal |
| ActivityStream.AYActivityStream.OnProjectChanged | activity_stream.py:288-293 | a different project name clears the stream; the new project is stored either way |
| ActivityStream.AYActivityStream.OnVersionDataChanged | activity_stream.py:295-301 | a different version id clears the stream; the version is stored after the clearing, so a details view still shows the old version's form |
| EntityPath.ItemsConcat | client/ayon_ui_qt/components/entity_path.py:48-59 | the shown segments and the separators of a layout add up part by part |
| EntityPath.SegmentItemsSpec | client/ayon_ui_qt/components/entity_path.py:54-58 | the labels show every segment once, in order, and one separator per segment whose text differs from the last segment's |
| EntityPath.LayoutSpec | client/ayon_ui_qt/components/entity_path.py:48-59 | the layout shows every segment once, in order, one separator per segment whose text differs from the last one's, and ends with the stretch |
| EntityPath.DifferCountSpec | client/ayon_ui_qt/components/entity_path.py:57 | the segments differing from the last are all of them exactly when none has the last one's text |
| EntityPath.SeparatorsBetweenAll | client/ayon_ui_qt/components/entity_path.py:48-59 | there is a separator between every two neighbouring segments exactly when no earlier segment has the last segment's text |
| EntityPath.LayoutByPositionSpec | client/ayon_ui_qt/components/entity_path.py:54-59 | in the intended layout segment labels and separators alternate, `n - 1` separators for `n` segments, then the stretch |
| EntityPath.RepeatedLastSplit | client/ayon_ui_qt/components/entity_path.py:44 | the path `a/b/a` has the segments `a`, `b`, `a` |
| EntityPath.RepeatedLastSegment | client/ayon_ui_qt/components/entity_path.py:57 | for `a`, `b`, `a` the widget shows `a b / a`, where `a / b / a` is meant |
| EntityPath.AYEntityPath.constructor | client/ayon_ui_qt/components/entity_path.py:28-36 | a new widget holds the initial path and shows its normalised segments |
| EntityPath.AYEntityPath.SetEntityPath | client/ayon_ui_qt/components/entity_path.py:42-46 | the getter returns the value as given, while the segments come from the normalised path and the layout is rebuilt from them |
| EntityPath.AYEntityPath.Build | client/ayon_ui_qt/components/entity_path.py:48-59 | the layout is rebuilt from the segments; the path and segments are unchanged |
| EntityPath.ShownSegments | client/ayon_ui_qt/components/entity_path.py:42-59 | whatever path is set, the widget shows each of its normalised segments once, in order |
| LegacyEntityPath.HeadTailEnds | ayon_ui_qt/components/entity_path.py:57-73 | only the first and last segments matter: paths that agree on them get the same labels, and a one-segment path shows that segment as head and tail |
| LegacyEntityPath.InitialSegments | ayon_ui_qt/components/entity_path.py:35-42 | the initial path splits into `Project`, `assets`, `characters`, `robot`, `Render` |
| LegacyEntityPath.AYEntityPath.constructor | ayon_ui_qt/components/entity_path.py:35-42 | the widget holds the initial path and shows `Project / ... / Render`, built once |
| LegacyEntityPath.AYEntityPath.SetEntityPath | ayon_ui_qt/components/entity_path.py:52-55 | the path and its unnormalised segments are stored; the labels already built stay as they are |
| UserImage.FirstChars | client/ayon_ui_qt/components/user_image.py:96 | one character per word, each word's first |
| UserImage.Initials | client/ayon_ui_qt/components/user_image.py:94-98 | one whitespace-free initial per word of the full name (none for a blank full name); else the short name's first letter; else `?` |
| UserImage.SplitWsJoin | client/ayon_ui_qt/components/user_image.py:96 | `str.split()` gives back the words of a name written with single spaces |
| UserImage.InitialsOfWords | client/ayon_ui_qt/components/user_image.py:94-98 | a full name of words separated by single spaces has exactly one initial per word, in order |
| UserImage.PointSize | client/ayon_ui_qt/components/user_image.py:110 | the initials' point size is at least 8 and at least half the widget size, and is one of the two |
| UserImage.InnerSize | client/ayon_ui_qt/components/user_image.py:71 | the scaled image fills the widget exactly when no outline is drawn, and is never larger |
| UserImage.Outline | client/ayon_ui_qt/components/user_image.py:121-124 | an outline is drawn exactly when outline or highlight is on, and it is green exactly when highlighted |
| UserImage.Render | client/ayon_ui_qt/components/user_image.py:48-129 | an empty source gives the upper-cased initials badge at point size `PointSize(size)`; otherwise the loaded image at the inner size, or nothing when Qt cannot load it; the outline follows the flags |
| UserImage.AYUserImage.constructor | client/ayon_ui_qt/components/user_image.py:15-46 | the parameters are stored, the source resolved through the cache and the picture painted from them |
| UserImage.AYUserImage.SetImage | client/ayon_ui_qt/components/user_image.py:48-129 | a non-empty source missing on disk is replaced by the cache's answer when a file loader is given, and kept otherwise; the picture is the one `Render` describes for the source before and after that lookup; the other parameters are unchanged |
| UserImage.AYUserImage.UpdateParams | client/ayon_ui_qt/components/user_image.py:131-134 | the new source and full name are stored, the short name, size and flags kept, and the picture repainted |

## Left out

Left out everywhere:
- Painting and Qt plumbing are not modelled. This covers QPainter/QStyle drawing, `polish`, paint events, layouts, QCompleter setup and popup geometry. Only the decisions and the integer arithmetic around them are kept.
- Qt's signal dispatch is not modelled. An emitted signal is an entry appended to an event log, and connection types are not represented.
- Floating-point colour maths is taken as given functions: `hsl_to_html_color`, `color_blend` and text-colour contrast. Their results are parameters.
- File and JSON I/O, the image cache's locks, the `atexit` save and directory creation are left out. So are `IOError` and every other error of the file system.
- The SHA-256 cache file name and the file copy are parameters of the image cache.
- `json.loads` in `preprocess_payload` is a parameter, and so is `os.path.normpath`.
- `Path.exists`, whether Qt can load a pixmap, and the markdown `toMarkdown` returns are all parameters.
- `print` calls are left out.
- Regular expressions are scanners over ASCII only: `\d` is `0`-`9` and `\w` is `[A-Za-z0-9_]`. Python's Unicode classes are not modelled.
- `str.lower` / `str.upper` map ASCII letters only.
- `short_date` is left out. Its `datetime` parsing is a foreign call.
- The theme JSON is a typed record. The `TypeError`s a malformed document would raise while it is being read are not modelled.

Left out by module:
- ButtonStyle.PushButtonSize: the icon and text paddings are parameters, not read from the button's style dictionary. A style that lacks `icon-padding` or `text-padding`, where the code raises `KeyError`, is not represented.
- ButtonStyle.SubElementRect: the paddings are parameters, as for `PushButtonSize`; the `get_style` call that supplies them is not part of this member.
- ButtonStyle.ComboboxSize: the paddings are parameters, as for `PushButtonSize`.
- QssRules.Converter: `parse_font_shorthand` (css_to_qss_converter.py) is not part of this model. It is a given function of the converter.
- QssRules.Converter: ignore patterns are matched as literal prefixes. The `ignore_props` set is given to the constructor, and `SetIgnoreProps` models its assignment in `process_json_file`.
- QssConverter: an alpha text such as `0.5` is read as an exact decimal. Float rounding of very long alpha texts is not modelled.
- ImageCache: timestamps are integers rather than floats. `int(max * 0.9)` is modelled as `(max * 9) / 10`, which is exact for whole byte counts below 2^53.
- ImageCache: JSON metadata entries that lack keys are not modelled; the `.get` defaults the code applies are not represented.
- ImageCache: the sort before eviction is proved ordered by time and a permutation, but its stability is not stated.
- ImageCache.FileVanished: a file deleted by someone else between two calls is modelled as a disk change passed in.
- Payload: the write-back of a decoded `activityData` into the caller's dictionary is not modelled.
- Payload: the escapes and quote choice of Python's `repr`, and equality between a number of one type and a number of another, are not modelled.
- TextBox: `get_attachments` and `get_file_attachments` only return copies, so they are not modelled.
- TextBox: the emitted file list is the same list object that is cleared afterwards. That aliasing is not modelled; the model emits a value.
- TextBox: `_refresh_file_attachment_display` is modelled only as the counter `fileRefreshes` of its rebuilds, without the widgets it lays out.
- TextBox: the rebuilds of the annotation display (`_refresh_attachment_display`, called at text_box.py:570, 759, 773 and 802) are not modelled; the annotations themselves are.
- TextBox: the user list that a project change passes to the editor and completer is not modelled.
- TextBox: shallow copies of attachment dictionaries are not modelled.
- LegacyTextBox: shallow copies of attachment dictionaries are not modelled.
- WebMarkdown: the `offset_map` / `position_map` loops of `apply_web_markdown_formatting` are not modelled; their results are never read. The Qt character formats and the heading font size are not modelled either.
- Completion: Qt emitting `textChanged` again while a completion is inserted is not modelled. Where Qt clamps a cursor position to its block, the model instead requires `cursor <= |block|` (`CommentField.Valid`). Moving the popup's current row with the arrow keys is not modelled.
- Comment: `hasattr(local_path)` is always true in the model. The thumbnail path is not modelled.
- EntityPath.AYEntityPath.Build: the `if not lyt` guard is not modelled. It is always false once the widget is constructed.
- EntityPath: labels and the stretch stand for the Qt widgets of the layout.
- WidgetTree: `AyonStyleEventFilter.eventFilter` (qss_override.py:20-34) is not modelled. For a paint event on a widget it draws the shaped frame and returns `False`, and painting is left out; every other event goes to Qt's base filter.
- UserImage: a `Path` source is always truthy in Python; the model takes the source as a string.
- UserImage: the image-cache state change behind the cache lookup is not modelled; the lookup is a given function. See `ImageCache.Cache.Get` for the cache itself.
- UserImage.AYUserImage.SetImage: the cache lookup is a total function, so an exception raised inside the cache cannot reach the avatar in the model.
- DetailPanel: the combo box is reduced to its items, its current text and its signal log.
- DetailPanel: `on_ctlr_version_status_changed` mutates a shared `VersionData` in place. That aliasing is not modelled.
- DetailPanel: priorities, the thumbnail and the layout are not modelled.
- ActivityStream: the `ActivityData` passed in is aliased, so appends also reach the caller's object. That aliasing is not modelled.
- ActivityStream: the comment widgets' own signals and styling are not modelled.
- ActivityStream: `time_stamp` is the `now` parameter.
- ActivityStream: a comment model's files, annotations and short date are not modelled.
- ActivityStream: the truthiness check on the current user is modelled as `None`.

## Findings

| source | as written | input that shows it | evidently intended | confidence | as-written member | corrected member |
|---|---|---|---|---|---|---|
| client/ayon_ui_qt/components/comment_completion.py:488-490 | a link moves the later spans back by `len(content) + len(url) + 4`, although only `len(url) + 4` characters of link syntax are removed and the link text stays | `[a](u) **b**`: the plain text is `a b`; the bold range as written is 1..2, which is the space | the bold range is 2..3, the `b`, since the link moves later spans back by `len(url) + 4` | not executed | WebMarkdown.LinkOffsetAsWritten | WebMarkdown.PlainTextRanges |
| client/ayon_ui_qt/components/entity_path.py:57 | a separator follows a segment when its TEXT differs from the last segment's | the path `a/b/a` shows `a`, `b`, `/`, `a` | a separator after every segment but the last, giving `a / b / a` | not executed | EntityPath.RepeatedLastSegment | EntityPath.LayoutByPositionSpec |

The widget class `EntityPath.AYEntityPath` keeps the rule as written, since that is what the widget shows. `EntityPath.LayoutByPosition` is the corrected layout. `EntityPath.SeparatorsBetweenAll` proves when the two agree: exactly when no earlier segment repeats the last one's text.

`WebMarkdown.ApplyWebMarkdown` and `WebMarkdown.FormatList` keep the link offset as written, since that is what the widget applies. `WebMarkdown.Ranges` is the corrected list. `WebMarkdown.RangesAsWrittenAgree` proves that the two agree on text without links.
