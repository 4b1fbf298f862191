/** The push-button and check-box rules of the widget style, and the legacy
    combo-box size: which variant and state a button is drawn with, how big
    it asks to be, the rectangles of its contents and focus frame, and the
    fixed pixel metrics. Font metrics and icon sizes are inputs; the paddings
    are the `[vertical, horizontal]` pairs read from the button's style. */
module ButtonStyle {
  import opened Wrappers
  import StyleData

  datatype Size = Size(width: int, height: int)

  /** `QSize()`, Qt's invalid size. */
  const InvalidSize := Size(-1, -1)

  /** A `QRect` by its corners, as `adjusted` moves them. */
  datatype Rect = Rect(x1: int, y1: int, x2: int, y2: int)
  {
    function Adjusted(dx1: int, dy1: int, dx2: int, dy2: int): Rect
    {
      Rect(x1 + dx1, y1 + dy1, x2 + dx2, y2 + dy2)
    }
  }

  /** A padding entry of the style: `[vertical, horizontal]`. */
  datatype Pad = Pad(v: int, h: int)

  function Max(a: int, b: int): int { if a >= b then a else b }

  // ------------------------------------------------------------------
  // Variant and state

  /** An attribute lookup: missing, or present with a value that may be
      `None`. */
  datatype Attr = Absent | Present(value: Option<string>)

  /** The two variant attributes a button widget may carry. */
  datatype ButtonWidget = ButtonWidget(underscoreVariant: Attr, variant: Attr)

  /** The value the attribute loop ends with: `variant` when present,
      else `_variant` when present, else `None`. */
  function VariantAttr(w: ButtonWidget): (r: Option<string>)
    ensures w.variant.Present? ==> r == w.variant.value
    ensures w.variant.Absent? && w.underscoreVariant.Present? ==> r == w.underscoreVariant.value
    ensures w.variant.Absent? && w.underscoreVariant.Absent? ==> r == None
  {
    var r := if w.underscoreVariant.Present? then w.underscoreVariant.value else None;
    if w.variant.Present? then w.variant.value else r
  }

  /** `get_button_variant`. The known variants are only looked up for a
      non-empty attribute value, and that lookup raises `KeyError` when the
      theme has no `QPushButton` entry. */
  function ButtonVariant(t: StyleData.Theme, w: Option<ButtonWidget>): Result<string, StyleData.StyleError>
  {
    if w.None? then Ok("surface")
    else
      var v := VariantAttr(w.value);
      if v.None? || v.value == "" then Ok("surface")
      else
        match StyleData.WidgetVariants(t, "QPushButton")
        case Err(x) => Err(x)
        case Ok(known) => if v.value in known then Ok(v.value) else Ok("surface")
  }

  /** The variant is the attribute value exactly when that value is a known
      push-button variant; every other outcome is `"surface"` or the lookup
      error. */
  lemma ButtonVariantRule(t: StyleData.Theme, w: Option<ButtonWidget>)
    ensures w.None? ==> ButtonVariant(t, w) == Ok("surface")
    ensures ButtonVariant(t, w).Ok? ==>
              ButtonVariant(t, w).value == "surface"
              || (w.Some? && VariantAttr(w.value) == Some(ButtonVariant(t, w).value)
                  && ButtonVariant(t, w).value in StyleData.WidgetVariants(t, "QPushButton").value)
    ensures w.Some? && VariantAttr(w.value).Some? && VariantAttr(w.value).value != ""
            && StyleData.WidgetVariants(t, "QPushButton").Ok?
            && VariantAttr(w.value).value in StyleData.WidgetVariants(t, "QPushButton").value
            ==> ButtonVariant(t, w) == Ok(VariantAttr(w.value).value)
    ensures ButtonVariant(t, w).Err? ==>
              w.Some? && VariantAttr(w.value).Some? && VariantAttr(w.value).value != ""
              && StyleData.WidgetVariants(t, "QPushButton").Err?
  {
  }

  /** The state flags the button style reads. */
  datatype StateFlags = StateFlags(enabled: bool, sunken: bool, mouseOver: bool, on: bool)

  /** The state name `get_button_style` asks the theme for. */
  function ButtonState(f: StateFlags): string
  {
    if !f.enabled then "disabled"
    else if f.sunken then "pressed"
    else if f.mouseOver && !f.on then "hover"
    else if f.on then "checked"
    else "base"
  }

  /** Each state name holds exactly under its flag condition: disabled wins
      over pressed, pressed over hover, hover (only while not checked) over
      checked, and `"base"` is what is left. */
  lemma ButtonStatePriority(f: StateFlags)
    ensures ButtonState(f) == "disabled" <==> !f.enabled
    ensures ButtonState(f) == "pressed" <==> f.enabled && f.sunken
    ensures ButtonState(f) == "hover" <==> f.enabled && !f.sunken && f.mouseOver && !f.on
    ensures ButtonState(f) == "checked" <==> f.enabled && !f.sunken && f.on
    ensures ButtonState(f) == "base" <==> f.enabled && !f.sunken && !f.mouseOver && !f.on
  {
  }

  /** The older style's state pick, which has no checked state. */
  function LegacyButtonState(f: StateFlags): string
  {
    if !f.enabled then "disabled"
    else if f.sunken then "pressed"
    else if f.mouseOver then "hover"
    else "base"
  }

  /** The older pick ignores `on`: a hovered checked button is `"hover"` and
      an idle one `"base"`; it agrees with the newer pick whenever the button
      is not checked. */
  lemma LegacyButtonStateRule(f: StateFlags)
    ensures LegacyButtonState(f) == "disabled" <==> !f.enabled
    ensures LegacyButtonState(f) == "pressed" <==> f.enabled && f.sunken
    ensures LegacyButtonState(f) == "hover" <==> f.enabled && !f.sunken && f.mouseOver
    ensures LegacyButtonState(f) == "base" <==> f.enabled && !f.sunken && !f.mouseOver
    ensures !f.on ==> LegacyButtonState(f) == ButtonState(f)
    ensures f.on && f.enabled && !f.sunken ==> ButtonState(f) == "checked" && LegacyButtonState(f) != "checked"
  {
  }

  /** `get_button_style`: the theme style for the button's variant and its
      state, through the store's memo. A variant error leaves the store as
      it was; a cached request returns the stored style and changes
      nothing; a new request computes the style and, when that succeeds,
      stores it and makes it the current style. */
  method GetButtonStyle(store: StyleData.Store, w: Option<ButtonWidget>, f: StateFlags)
    returns (r: Result<StyleData.Props, StyleData.StyleError>)
    requires store.Valid()
    modifies store
    ensures store.Valid()
    ensures ButtonVariant(store.theme, w).Err? ==>
              r == Err(ButtonVariant(store.theme, w).error)
              && store.cache == old(store.cache) && store.lastKey == old(store.lastKey)
    ensures ButtonVariant(store.theme, w).Ok? ==>
              var variant := Some(ButtonVariant(store.theme, w).value);
              var key := StyleData.CacheKey("QPushButton", variant, ButtonState(f));
              if key in old(store.cache) then
                r == Ok(old(store.cache)[key])
                && store.cache == old(store.cache) && store.lastKey == old(store.lastKey)
              else
                r == StyleData.ComputeStyle(store.theme, "QPushButton", variant, ButtonState(f))
                && (r.Ok? ==> store.cache == old(store.cache)[key := r.value] && store.lastKey == key)
                && (r.Err? ==> store.cache == old(store.cache) && store.lastKey == old(store.lastKey))
  {
    var v := ButtonVariant(store.theme, w);
    if v.Err? {
      return Err(v.error);
    }
    r := store.GetStyle("QPushButton", Some(v.value), ButtonState(f));
  }

  // ------------------------------------------------------------------
  // Push-button size

  /** The style option handed to `sizeFromContents`: absent, of another
      kind, or a button option with its text, icon and measured text box. */
  datatype SizeOption =
    | NoOption
    | OtherOption
    | ButtonOption(text: string, iconNull: bool, iconSize: Size, textBox: Size)

  /** The content box: icon, 4 pixels, then text; the icon alone; the text
      alone; or nothing. */
  function ContentSize(o: SizeOption): Size
    requires o.ButtonOption?
  {
    var hasIcon := !o.iconNull;
    var hasText := o.text != "";
    if hasIcon && hasText then Size(o.iconSize.width + 4 + o.textBox.width, Max(o.iconSize.height, o.textBox.height))
    else if hasIcon then o.iconSize
    else if hasText then o.textBox
    else Size(0, 0)
  }

  /** `calculate_push_button_size`. `parent` is the size the base style
      computes for an option of another kind. */
  function PushButtonSize(o: SizeOption, iconPad: Pad, textPad: Pad, parent: Size): (r: Size)
    ensures o.ButtonOption? ==> r.width >= 32 && r.height >= 24
    ensures o.NoOption? ==> r == Size(100, 30)
    ensures o.OtherOption? ==> r == parent
  {
    match o
    case NoOption => Size(100, 30)
    case OtherOption => parent
    case ButtonOption(text, iconNull, _, _) =>
      var pad := if !iconNull && text == "" then iconPad else textPad;
      var c := ContentSize(o);
      Size(Max(c.width + 2 * pad.h, 32), Max(c.height + 2 * pad.v, 24))
  }

  /** The padding rule: an icon-only button is padded by the icon padding,
      every other button by the text padding, horizontally on both sides and
      vertically top and bottom; a button bigger than 32x24 is exactly its
      content plus padding. */
  lemma PushButtonSizeParts(o: SizeOption, iconPad: Pad, textPad: Pad, parent: Size)
    requires o.ButtonOption?
    ensures var pad := if !o.iconNull && o.text == "" then iconPad else textPad;
            var r := PushButtonSize(o, iconPad, textPad, parent);
            var c := ContentSize(o);
            r.width >= c.width + 2 * pad.h && r.height >= c.height + 2 * pad.v
            && (r.width > 32 ==> r.width == c.width + 2 * pad.h)
            && (r.height > 24 ==> r.height == c.height + 2 * pad.v)
  {
  }

  /** The content box: icon plus 4 plus text side by side, else whichever
      part is present. */
  lemma ContentSizeCases(o: SizeOption)
    requires o.ButtonOption?
    ensures !o.iconNull && o.text != "" ==>
              ContentSize(o).width == o.iconSize.width + 4 + o.textBox.width
              && ContentSize(o).height >= o.iconSize.height && ContentSize(o).height >= o.textBox.height
              && (ContentSize(o).height == o.iconSize.height || ContentSize(o).height == o.textBox.height)
    ensures !o.iconNull && o.text == "" ==> ContentSize(o) == o.iconSize
    ensures o.iconNull && o.text != "" ==> ContentSize(o) == o.textBox
    ensures o.iconNull && o.text == "" ==> ContentSize(o) == Size(0, 0)
  {
  }

  /** A wider text never makes a text button narrower. */
  lemma PushButtonSizeMonotone(o: SizeOption, w: int, iconPad: Pad, textPad: Pad, parent: Size)
    requires o.ButtonOption? && o.text != "" && w >= o.textBox.width
    ensures PushButtonSize(o.(textBox := o.textBox.(width := w)), iconPad, textPad, parent).width
            >= PushButtonSize(o, iconPad, textPad, parent).width
  {
  }

  // ------------------------------------------------------------------
  // Sub-element rectangles

  datatype SubElement = PushButtonContents | PushButtonFocusRect | OtherElement(id: int)

  /** The contents rectangle: inset by the horizontal padding left and
      right and by the vertical padding top and bottom. */
  function Inset(rect: Rect, pad: Pad): (r: Rect)
    ensures r.x1 - rect.x1 == pad.h && rect.x2 - r.x2 == pad.h
    ensures r.y1 - rect.y1 == pad.v && rect.y2 - r.y2 == pad.v
  {
    rect.Adjusted(pad.h, pad.v, -pad.h, -pad.v)
  }

  /** The focus rectangle: 2 pixels larger on each side. */
  function FocusRect(rect: Rect): (r: Rect)
    ensures rect.x1 - r.x1 == 2 && r.x2 - rect.x2 == 2
    ensures rect.y1 - r.y1 == 2 && r.y2 - rect.y2 == 2
  {
    rect.Adjusted(-2, -2, 2, 2)
  }

  /** Insetting the focus rectangle by 2 each way gives back the button
      rectangle. */
  lemma FocusRectInverse(rect: Rect)
    ensures Inset(FocusRect(rect), Pad(2, 2)) == rect
  {
  }

  /** `ButtonDrawer.sub_element_rect`: the icon padding applies to a button
      whose option carries an icon and whose text is empty. */
  function SubElementRect(e: SubElement, rect: Rect, optionHasIcon: bool, widgetText: string, iconPad: Pad, textPad: Pad)
    : (r: Result<Rect, string>)
    ensures r.Err? <==> e.OtherElement?
    ensures e.PushButtonContents? ==>
              r == Ok(Inset(rect, if optionHasIcon && widgetText == "" then iconPad else textPad))
    ensures e.PushButtonFocusRect? ==> r == Ok(FocusRect(rect))
  {
    match e
    case PushButtonContents =>
      var pad := if optionHasIcon then (if widgetText == "" then iconPad else textPad) else textPad;
      Ok(Inset(rect, pad))
    case PushButtonFocusRect => Ok(FocusRect(rect))
    case OtherElement(_) => Err("ValueError")
  }

  /** What the older style knows about a button to decide whether it shows
      an icon: a `has_icon` attribute, a `has_icon` Qt property, and the
      icon itself. */
  datatype LegacyButton = LegacyButton(hasIconAttr: Option<bool>, hasIconProp: Option<bool>, iconNull: bool, text: string)

  /** `get_button_has_icon`: the attribute first, then a property that is
      not `None`, then a non-null icon; no widget has no icon. */
  function HasIcon(w: Option<LegacyButton>): (r: bool)
    ensures w.None? ==> !r
    ensures w.Some? && w.value.hasIconAttr.Some? ==> r == w.value.hasIconAttr.value
    ensures w.Some? && w.value.hasIconAttr.None? && w.value.hasIconProp.Some? ==> r == w.value.hasIconProp.value
    ensures w.Some? && w.value.hasIconAttr.None? && w.value.hasIconProp.None? ==> r == !w.value.iconNull
  {
    if w.None? then false
    else if w.value.hasIconAttr.Some? then w.value.hasIconAttr.value
    else if w.value.hasIconProp.Some? then w.value.hasIconProp.value
    else !w.value.iconNull
  }

  /** The older `sub_element_rect`: the icon padding applies only to a
      widget that has a `has_icon` attribute, reports an icon, and has no
      text; the icon of the option is not consulted. */
  function LegacySubElementRect(e: SubElement, rect: Rect, w: Option<LegacyButton>, iconPad: Pad, textPad: Pad)
    : (r: Result<Rect, string>)
  {
    match e
    case PushButtonContents =>
      var pad := if w.Some? && w.value.hasIconAttr.Some?
                 then (if HasIcon(w) && w.value.text == "" then iconPad else textPad)
                 else textPad;
      Ok(Inset(rect, pad))
    case PushButtonFocusRect => Ok(FocusRect(rect))
    case OtherElement(_) => Err("ValueError")
  }

  /** Icon padding exactly for a widget with a true `has_icon` attribute and
      no text; a `has_icon` property or a real icon is not enough. */
  lemma LegacySubElementRectRule(e: SubElement, rect: Rect, w: Option<LegacyButton>, iconPad: Pad, textPad: Pad)
    ensures LegacySubElementRect(e, rect, w, iconPad, textPad).Err? <==> e.OtherElement?
    ensures e.PushButtonContents? ==>
              LegacySubElementRect(e, rect, w, iconPad, textPad)
              == Ok(Inset(rect, if w.Some? && w.value.hasIconAttr == Some(true) && w.value.text == ""
                                then iconPad else textPad))
    ensures e.PushButtonFocusRect? ==> LegacySubElementRect(e, rect, w, iconPad, textPad) == Ok(FocusRect(rect))
  {
  }

  // ------------------------------------------------------------------
  // Pixel metrics

  datatype PixelMetric =
    | ButtonMargin | DefaultFrameWidth | ButtonDefaultIndicator | FocusFrameVMargin | FocusFrameHMargin
    | IndicatorWidth | IndicatorHeight | CheckBoxLabelSpacing | OtherMetric(id: int)

  /** The metrics the push-button drawer registers. */
  const ButtonMetrics: set<PixelMetric> :=
    {ButtonMargin, DefaultFrameWidth, ButtonDefaultIndicator, FocusFrameVMargin, FocusFrameHMargin}

  /** `ButtonDrawer.get_metric`; `None` for a metric it does not know. */
  function ButtonMetric(m: PixelMetric): (r: Option<int>)
    ensures r.Some? <==> m in ButtonMetrics
  {
    match m
    case ButtonMargin => Some(6)
    case DefaultFrameWidth => Some(0)
    case ButtonDefaultIndicator => Some(0)
    case FocusFrameVMargin => Some(2)
    case FocusFrameHMargin => Some(2)
    case _ => None
  }

  /** The button metrics: a 6-pixel margin, no frame or default indicator,
      2-pixel focus margins. */
  lemma ButtonMetricValues()
    ensures ButtonMetric(ButtonMargin) == Some(6)
    ensures ButtonMetric(DefaultFrameWidth) == Some(0) && ButtonMetric(ButtonDefaultIndicator) == Some(0)
    ensures ButtonMetric(FocusFrameVMargin) == Some(2) && ButtonMetric(FocusFrameHMargin) == Some(2)
  {
  }

  /** `CheckboxDrawer.get_metric`: a 32x18 indicator with 8 pixels before
      the label, 0 for anything else. */
  function CheckboxMetric(m: PixelMetric): (r: int)
    ensures r != 0 <==> m in {IndicatorWidth, IndicatorHeight, CheckBoxLabelSpacing}
    ensures m == IndicatorWidth ==> r == 32
    ensures m == IndicatorHeight ==> r == 18
    ensures m == CheckBoxLabelSpacing ==> r == 8
  {
    match m
    case IndicatorWidth => 32
    case IndicatorHeight => 18
    case CheckBoxLabelSpacing => 8
    case _ => 0
  }

  // ------------------------------------------------------------------
  // Legacy combo-box size

  /** The option of the older combo-box sizer: none or of another kind, or
      a combo-box option with its current text, measured text box and
      current icon (the widget's `_icon_size`, 0 when unset, and the icon's
      available sizes). */
  datatype ComboOption =
    | NotCombo
    | ComboOption(currentText: string, textBox: Size, hasIcon: bool, widgetIconSize: int, availableSizes: seq<Size>)

  /** `ComboBoxDrawer.combobox_size`; an icon without available sizes and
      without `_icon_size` raises `IndexError`. */
  function ComboboxSize(o: ComboOption, textPad: Pad, iconPad: Pad): (r: Result<Size, string>)
  {
    if o.NotCombo? then Ok(InvalidSize)
    else
      var textWidth := if o.currentText != "" then o.textBox.width + textPad.v * 2 else 0;
      var textHeight := if o.currentText != "" then o.textBox.height + textPad.h * 2 else 0;
      if !o.hasIcon then Ok(Size(textWidth, textHeight))
      else if o.widgetIconSize == 0 && o.availableSizes == [] then Err("IndexError")
      else
        var icon := if o.widgetIconSize != 0 then o.widgetIconSize
                    else Max(o.availableSizes[0].width, o.availableSizes[0].height);
        var iconWidth := icon + iconPad.v * 2 + (if textWidth != 0 then textPad.v else 0);
        Ok(Size(textWidth + iconWidth, Max(textHeight, icon + iconPad.h * 2)))
  }

  /** The combo-box size case by case. The icon size is the widget's
      `_icon_size`, else the larger side of the icon's first available size,
      and an icon with neither raises `IndexError`. Without an icon the size
      is the padded text. With one, the width is the padded text plus the
      padded icon, with one more text padding between them when the padded
      text width is not 0, and the height is the larger of the padded text
      and the padded icon. The style's paddings are used index 0 for width
      and index 1 for height. */
  lemma ComboboxSizeRule(o: ComboOption, textPad: Pad, iconPad: Pad)
    requires o.ComboOption?
    ensures ComboboxSize(o, textPad, iconPad).Err?
            <==> o.hasIcon && o.widgetIconSize == 0 && o.availableSizes == []
    ensures var tw := if o.currentText != "" then o.textBox.width + textPad.v * 2 else 0;
            var th := if o.currentText != "" then o.textBox.height + textPad.h * 2 else 0;
            && (!o.hasIcon ==> ComboboxSize(o, textPad, iconPad) == Ok(Size(tw, th)))
            && (o.hasIcon && (o.widgetIconSize != 0 || o.availableSizes != []) ==>
                  var icon := if o.widgetIconSize != 0 then o.widgetIconSize
                              else Max(o.availableSizes[0].width, o.availableSizes[0].height);
                  ComboboxSize(o, textPad, iconPad)
                  == Ok(Size(tw + icon + iconPad.v * 2 + (if tw != 0 then textPad.v else 0),
                             Max(th, icon + iconPad.h * 2))))
  {
  }

  /** No option, or one of another kind, gives Qt's invalid size; without an
      icon the size is the padded text alone, and empty text with no icon
      is 0x0. */
  lemma ComboboxSizeEdges(o: ComboOption, textPad: Pad, iconPad: Pad)
    ensures o.NotCombo? ==> ComboboxSize(o, textPad, iconPad) == Ok(Size(-1, -1))
    ensures o.ComboOption? && !o.hasIcon && o.currentText == "" ==> ComboboxSize(o, textPad, iconPad) == Ok(Size(0, 0))
    ensures o.ComboOption? && o.hasIcon && o.widgetIconSize == 0 && o.availableSizes != [] ==>
              ComboboxSize(o, textPad, iconPad).Ok?
              && ComboboxSize(o, textPad, iconPad).value.height
                 >= Max(o.availableSizes[0].width, o.availableSizes[0].height) + iconPad.h * 2
  {
  }
}
