/** The rule-building half of the CSS-to-QSS converter: converting a
    `CSSStyleDeclaration` into QSS properties, formatting a rule, and the
    recursive walk over nested selectors and states. */
module QssRules {
  import opened Wrappers
  import ODict
  import opened Text
  import opened QssConverter

  /** A value of a `CSSStyleDeclaration`: only strings are converted. */
  datatype CssValue = Str(s: string) | NonString

  type Css = ODict.Dict<string, CssValue>

  /** Converted values the converter drops. */
  const DefaultValues: seq<string> := ["auto", "none", "normal"]

  /** A QSS property name: one of the mapping's targets. */
  predicate QssName(k: string)
  {
    exists i :: 0 <= i < |CssToQss| && CssToQss[i].1 == k
  }

  /** Every key is a QSS name and no value ends with `;`. */
  predicate Clean(q: Props)
  {
    forall i :: 0 <= i < |q| ==> QssName(q[i].0) && (q[i].1 == [] || q[i].1[|q[i].1| - 1] != ';')
  }

  // ------------------------------------------------------------------
  // convert_css_properties

  /** Assigning one converted value: the value loses its trailing `;`. */
  function Emit(q: Props, qssProp: string, value: string): (r: Props)
  {
    ODict.Set(q, qssProp, RStripChar(value, ';'))
  }

  /** The properties of a parsed `font` shorthand, each converted in turn. */
  function AddFontProps(q: Props, font: Props): (r: Props)
    decreases |font|
  {
    if font == [] then q
    else
      var k := font[0].0;
      var v := font[0].1;
      var q' :=
        match ODict.Get(CssToQss, k)
        case None => q
        case Some(qk) =>
          var pv := if k == "fontFamily" then CleanFontFamily(v) else v;
          if pv != [] && pv !in DefaultValues then Emit(q, qk, pv) else q;
      AddFontProps(q', font[1..])
  }

  /** Whether a property's value goes through `convert_color`. */
  predicate ColourProp(prop: string, qssProp: string)
  {
    Contains(Lower(qssProp), "color") || prop == "backgroundColor"
  }

  /** A value as converted for its property: colours through
      `convert_color`, font families through `clean_font_family`, anything
      else as written. */
  function ConvertValue(prop: string, qssProp: string, v: string): (r: Result<string, QssError>)
  {
    if ColourProp(prop, qssProp) then ConvertColor(v)
    else if prop == "fontFamily" then Ok(CleanFontFamily(v))
    else Ok(v)
  }

  /** One iteration of `convert_css_properties`. */
  function ConvertEntry(ignoreProps: seq<string>, parseFont: string -> Props, q: Props,
                        prop: string, value: CssValue): (r: Result<Props, QssError>)
  {
    match value
    case NonString => Ok(q)
    case Str(v) =>
      if !ShouldInclude(prop, v, ignoreProps) then Ok(q)
      else
        var qp := ODict.Get(CssToQss, prop).value;
        if HasVarRef(v) then Err(UnresolvedVariable(v))
        else if prop == "font" then Ok(AddFontProps(q, parseFont(v)))
        else
          match ConvertValue(prop, qp, v)
          case Err(e) => Err(e)
          case Ok(qv) => if qv != [] && qv !in DefaultValues then Ok(Emit(q, qp, qv)) else Ok(q)
  }

  /** The conversion loop over `css`, starting from `q`; the first error
      stops it. */
  function ConvertAll(ignoreProps: seq<string>, parseFont: string -> Props, q: Props, css: Css): (r: Result<Props, QssError>)
    decreases |css|
  {
    if css == [] then Ok(q)
    else
      match ConvertEntry(ignoreProps, parseFont, q, css[0].0, css[0].1)
      case Err(e) => Err(e)
      case Ok(q') => ConvertAll(ignoreProps, parseFont, q', css[1..])
  }

  /** `convert_css_properties`: the converted properties, optimised. */
  function ConvertProps(ignoreProps: seq<string>, parseFont: string -> Props, css: Css): (r: Result<Props, QssError>)
  {
    match ConvertAll(ignoreProps, parseFont, [], css)
    case Err(e) => Err(e)
    case Ok(q) => Ok(Optimize(q))
  }

  lemma EmitClean(q: Props, qp: string, v: string)
    requires Clean(q) && QssName(qp)
    ensures Clean(Emit(q, qp, v))
  {
    ODict.SetEntries(q, qp, RStripChar(v, ';'));
    var r := Emit(q, qp, v);
    forall i | 0 <= i < |r| ensures QssName(r[i].0) && (r[i].1 == [] || r[i].1[|r[i].1| - 1] != ';') {
      if r[i] != (qp, RStripChar(v, ';')) {
        var j :| 0 <= j < |q| && q[j] == r[i];
      }
    }
  }

  lemma MappedIsQssName(k: string)
    requires ODict.HasKey(CssToQss, k)
    ensures QssName(ODict.Get(CssToQss, k).value)
  {
  }

  lemma {:induction false} AddFontPropsClean(q: Props, font: Props)
    requires Clean(q) && ODict.Valid(q)
    ensures Clean(AddFontProps(q, font)) && ODict.Valid(AddFontProps(q, font))
    decreases |font|
  {
    if font != [] {
      var k := font[0].0;
      var v := font[0].1;
      match ODict.Get(CssToQss, k)
      case None =>
        AddFontPropsClean(q, font[1..]);
      case Some(qk) =>
        MappedIsQssName(k);
        var pv := if k == "fontFamily" then CleanFontFamily(v) else v;
        if pv != [] && pv !in DefaultValues {
          EmitClean(q, qk, pv);
          ODict.SetValid(q, qk, RStripChar(pv, ';'));
          AddFontPropsClean(Emit(q, qk, pv), font[1..]);
        } else {
          AddFontPropsClean(q, font[1..]);
        }
    }
  }

  lemma EntryClean(ignoreProps: seq<string>, parseFont: string -> Props, q: Props, prop: string, value: CssValue)
    requires Clean(q) && ODict.Valid(q)
    requires ConvertEntry(ignoreProps, parseFont, q, prop, value).Ok?
    ensures Clean(ConvertEntry(ignoreProps, parseFont, q, prop, value).value)
    ensures ODict.Valid(ConvertEntry(ignoreProps, parseFont, q, prop, value).value)
  {
    if value.Str? && ShouldInclude(prop, value.s, ignoreProps) {
      var v := value.s;
      MappedIsQssName(prop);
      var qp := ODict.Get(CssToQss, prop).value;
      if prop == "font" {
        AddFontPropsClean(q, parseFont(v));
      } else if !HasVarRef(v) {
        var qv := ConvertValue(prop, qp, v).value;
        if qv != [] && qv !in DefaultValues {
          EmitClean(q, qp, qv);
          ODict.SetValid(q, qp, RStripChar(qv, ';'));
        }
      }
    }
  }

  lemma {:induction false} ConvertAllClean(ignoreProps: seq<string>, parseFont: string -> Props, q: Props, css: Css)
    requires Clean(q) && ODict.Valid(q)
    requires ConvertAll(ignoreProps, parseFont, q, css).Ok?
    ensures Clean(ConvertAll(ignoreProps, parseFont, q, css).value)
    ensures ODict.Valid(ConvertAll(ignoreProps, parseFont, q, css).value)
    decreases |css|
  {
    if css != [] {
      EntryClean(ignoreProps, parseFont, q, css[0].0, css[0].1);
      var q' := ConvertEntry(ignoreProps, parseFont, q, css[0].0, css[0].1).value;
      ConvertAllClean(ignoreProps, parseFont, q', css[1..]);
    }
  }

  /** The converted properties have distinct QSS names as keys and no value
      ending in `;`. */
  lemma ConvertPropsClean(ignoreProps: seq<string>, parseFont: string -> Props, css: Css)
    requires ConvertProps(ignoreProps, parseFont, css).Ok?
    ensures var r := ConvertProps(ignoreProps, parseFont, css).value;
            ODict.Valid(r) && Clean(r)
  {
    ConvertAllClean(ignoreProps, parseFont, [], css);
    var q := ConvertAll(ignoreProps, parseFont, [], css).value;
    ODict.WithoutValid(q, DroppedKeys(q));
    ODict.WithoutEntries(q, DroppedKeys(q));
    var r := Optimize(q);
    forall i | 0 <= i < |r| ensures QssName(r[i].0) && (r[i].1 == [] || r[i].1[|r[i].1| - 1] != ';') {
      var j :| 0 <= j < |q| && q[j] == r[i];
    }
  }

  /** An included string value holding a `--name-` variable reference. */
  predicate Unresolved(ignoreProps: seq<string>, prop: string, value: CssValue)
  {
    value.Str? && ShouldInclude(prop, value.s, ignoreProps) && HasVarRef(value.s)
  }

  /** A successful conversion saw no unresolved variable among the included
      values. */
  lemma {:induction false} ConvertRejectsVariables(ignoreProps: seq<string>, parseFont: string -> Props, q: Props, css: Css)
    requires ConvertAll(ignoreProps, parseFont, q, css).Ok?
    ensures forall i :: 0 <= i < |css| ==> !Unresolved(ignoreProps, css[i].0, css[i].1)
    decreases |css|
  {
    if css != [] {
      var q' := ConvertEntry(ignoreProps, parseFont, q, css[0].0, css[0].1).value;
      ConvertRejectsVariables(ignoreProps, parseFont, q', css[1..]);
      forall i | 1 <= i < |css| ensures !Unresolved(ignoreProps, css[i].0, css[i].1) {
        assert css[i] == css[1..][i - 1];
      }
    }
  }

  /** The entries the loop does not skip: string values that pass
      `should_include_property`. */
  function Included(ignoreProps: seq<string>, css: Css): (r: Css)
    ensures |r| <= |css|
    decreases |css|
  {
    if css == [] then []
    else
      var rest := Included(ignoreProps, css[1..]);
      if css[0].1.Str? && ShouldInclude(css[0].0, css[0].1.s, ignoreProps) then [css[0]] + rest else rest
  }

  /** Skipped entries (non-strings, excluded properties) have no effect:
      converting only the included entries gives the same result. */
  lemma {:induction false} ConvertSkips(ignoreProps: seq<string>, parseFont: string -> Props, q: Props, css: Css)
    ensures ConvertAll(ignoreProps, parseFont, q, css) == ConvertAll(ignoreProps, parseFont, q, Included(ignoreProps, css))
    decreases |css|
  {
    if css != [] {
      var inc := css[0].1.Str? && ShouldInclude(css[0].0, css[0].1.s, ignoreProps);
      match ConvertEntry(ignoreProps, parseFont, q, css[0].0, css[0].1)
      case Err(e) =>
        assert inc;
        assert ([css[0]] + Included(ignoreProps, css[1..]))[0] == css[0];
      case Ok(q') =>
        ConvertSkips(ignoreProps, parseFont, q', css[1..]);
        if inc {
          var l := [css[0]] + Included(ignoreProps, css[1..]);
          assert l[0] == css[0] && l[1..] == Included(ignoreProps, css[1..]);
        } else {
          assert q' == q;
        }
    }
  }

  // ------------------------------------------------------------------
  // format_qss_rule

  /** The preferred property order, in six groups: colours and sizes,
      spacing, border shorthands and per-side widths and styles, per-side
      colours and corner radii, font and text, and the rest. */
  const ColourOrder: seq<string> := ["background-color", "color", "width", "height"]
  const SpacingOrder: seq<string> := [
    "margin", "margin-top", "margin-right", "margin-bottom", "margin-left",
    "padding", "padding-top", "padding-right", "padding-bottom", "padding-left"]
  const BorderOrder: seq<string> := [
    "border", "border-width", "border-style", "border-color", "border-radius",
    "border-top-width", "border-right-width", "border-bottom-width", "border-left-width",
    "border-top-style", "border-right-style", "border-bottom-style", "border-left-style"]
  const CornerOrder: seq<string> := [
    "border-top-color", "border-right-color", "border-bottom-color", "border-left-color",
    "border-top-left-radius", "border-top-right-radius", "border-bottom-left-radius", "border-bottom-right-radius"]
  const FontOrder: seq<string> := [
    "font-family", "font-size", "font-weight", "font-style", "line-height", "letter-spacing",
    "text-align", "text-decoration", "text-transform"]
  const OtherOrder: seq<string> := ["opacity", "outline", "outline-color", "outline-width", "outline-style"]

  const PropertyOrder: seq<string> := ColourOrder + SpacingOrder + BorderOrder + CornerOrder + FontOrder + OtherOrder

  predicate Distinct(s: seq<string>)
  {
    forall i, j :: 0 <= i < j < |s| ==> s[i] != s[j]
  }

  predicate Disjoint(a: seq<string>, b: seq<string>)
  {
    forall i, j :: 0 <= i < |a| && 0 <= j < |b| ==> a[i] != b[j]
  }

  lemma DistinctConcat(a: seq<string>, b: seq<string>)
    requires Distinct(a) && Distinct(b) && Disjoint(a, b)
    ensures Distinct(a + b)
  {
    forall i, j | 0 <= i < j < |a + b| ensures (a + b)[i] != (a + b)[j] {
      if j >= |a| {
        assert (a + b)[j] == b[j - |a|];
        if i >= |a| { assert (a + b)[i] == b[i - |a|]; }
      }
    }
  }

  lemma DisjointConcat(a: seq<string>, b: seq<string>, c: seq<string>)
    requires Disjoint(a, c) && Disjoint(b, c)
    ensures Disjoint(a + b, c)
  {
    forall i, j | 0 <= i < |a + b| && 0 <= j < |c| ensures (a + b)[i] != c[j] {
      if i >= |a| { assert (a + b)[i] == b[i - |a|]; }
    }
  }

  lemma OrderGroupsDistinct()
    ensures Distinct(ColourOrder) && Distinct(SpacingOrder) && Distinct(BorderOrder)
    ensures Distinct(CornerOrder) && Distinct(FontOrder) && Distinct(OtherOrder)
  {
  }

  lemma ColourOrderApart()
    ensures Disjoint(ColourOrder, SpacingOrder) && Disjoint(ColourOrder, BorderOrder)
    ensures Disjoint(ColourOrder, CornerOrder) && Disjoint(ColourOrder, FontOrder)
    ensures Disjoint(ColourOrder, OtherOrder)
  {
  }

  lemma SpacingOrderApart()
    ensures Disjoint(SpacingOrder, BorderOrder) && Disjoint(SpacingOrder, CornerOrder)
    ensures Disjoint(SpacingOrder, FontOrder) && Disjoint(SpacingOrder, OtherOrder)
  {
  }

  lemma BorderOrderApart()
    ensures Disjoint(BorderOrder, CornerOrder) && Disjoint(BorderOrder, FontOrder)
    ensures Disjoint(BorderOrder, OtherOrder)
  {
  }

  lemma LastOrdersApart()
    ensures Disjoint(CornerOrder, FontOrder) && Disjoint(CornerOrder, OtherOrder)
    ensures Disjoint(FontOrder, OtherOrder)
  {
  }

  /** No property is listed twice in the preferred order. */
  lemma PropertyOrderDistinct()
    ensures Distinct(PropertyOrder)
  {
    OrderGroupsDistinct();
    ColourOrderApart();
    SpacingOrderApart();
    BorderOrderApart();
    LastOrdersApart();
    var a := ColourOrder;
    DistinctConcat(a, SpacingOrder);
    a := a + SpacingOrder;
    DisjointConcat(ColourOrder, SpacingOrder, BorderOrder);
    DistinctConcat(a, BorderOrder);
    DisjointConcat(ColourOrder, SpacingOrder, CornerOrder);
    DisjointConcat(a, BorderOrder, CornerOrder);
    a := a + BorderOrder;
    DistinctConcat(a, CornerOrder);
    DisjointConcat(ColourOrder, SpacingOrder, FontOrder);
    DisjointConcat(ColourOrder + SpacingOrder, BorderOrder, FontOrder);
    DisjointConcat(a, CornerOrder, FontOrder);
    a := a + CornerOrder;
    DistinctConcat(a, FontOrder);
    DisjointConcat(ColourOrder, SpacingOrder, OtherOrder);
    DisjointConcat(ColourOrder + SpacingOrder, BorderOrder, OtherOrder);
    DisjointConcat(ColourOrder + SpacingOrder + BorderOrder, CornerOrder, OtherOrder);
    DisjointConcat(a, FontOrder, OtherOrder);
    a := a + FontOrder;
    DistinctConcat(a, OtherOrder);
  }

  predicate StrictlySorted(s: seq<string>)
  {
    forall i, j :: 0 <= i < j < |s| ==> LexLess(s[i], s[j])
  }

  function Insert(x: string, s: seq<string>): (r: seq<string>)
    decreases |s|
  {
    if s == [] then [x]
    else if LexLess(x, s[0]) then [x] + s
    else [s[0]] + Insert(x, s[1..])
  }

  /** `sorted(...)` of a duplicate-free list of strings. */
  function SortStrings(s: seq<string>): (r: seq<string>)
    decreases |s|
  {
    if s == [] then [] else Insert(s[0], SortStrings(s[1..]))
  }

  lemma {:induction false} InsertSpec(x: string, s: seq<string>)
    requires StrictlySorted(s) && x !in s
    ensures StrictlySorted(Insert(x, s))
    ensures multiset(Insert(x, s)) == multiset(s) + multiset{x}
    decreases |s|
  {
    if s != [] {
      if LexLess(x, s[0]) {
        forall j | 0 < j < |[x] + s| ensures LexLess(([x] + s)[0], ([x] + s)[j]) {
          if j > 1 { LexTransitive(x, s[0], s[j - 1]); }
        }
      } else {
        LexTotal(x, s[0]);
        assert x != s[0];
        var t := s[1..];
        assert s == [s[0]] + t;
        InsertSpec(x, t);
        var r := [s[0]] + Insert(x, t);
        forall i, j | 0 <= i < j < |r| ensures LexLess(r[i], r[j]) {
          if i == 0 {
            assert r[j] in multiset(Insert(x, t));
            assert r[j] == x || r[j] in t;
          }
        }
      }
    }
  }

  lemma {:induction false} SortSpec(s: seq<string>)
    requires Distinct(s)
    ensures StrictlySorted(SortStrings(s))
    ensures multiset(SortStrings(s)) == multiset(s)
    decreases |s|
  {
    if s != [] {
      assert s == [s[0]] + s[1..];
      assert Distinct(s[1..]);
      SortSpec(s[1..]);
      assert s[0] !in multiset(SortStrings(s[1..]));
      InsertSpec(s[0], SortStrings(s[1..]));
    }
  }

  /** Strictly sorted lists with the same members are equal, so sorting a
      set does not depend on the order its members are listed in. */
  lemma {:induction false} SortedUnique(a: seq<string>, b: seq<string>)
    requires StrictlySorted(a) && StrictlySorted(b)
    requires forall x :: x in a <==> x in b
    ensures a == b
    decreases |a|
  {
    assert a == [] <==> b == [] by {
      if a != [] { assert a[0] in b; }
      if b != [] { assert b[0] in a; }
    }
    if a != [] {
      if a[0] != b[0] {
        assert a[0] in b && b[0] in a;
        var i :| 0 <= i < |b| && b[i] == a[0];
        var j :| 0 <= j < |a| && a[j] == b[0];
        LexTransitive(a[0], b[0], a[0]);
        LexIrreflexive(a[0]);
      }
      forall x ensures x in a[1..] <==> x in b[1..] {
        if x in a[1..] {
          var j :| 1 <= j < |a| && a[j] == x;
          LexIrreflexive(x);
          assert x != a[0];
          assert x in b;
        }
        if x in b[1..] {
          var j :| 1 <= j < |b| && b[j] == x;
          LexIrreflexive(x);
          assert x != b[0];
          assert x in a;
        }
      }
      SortedUnique(a[1..], b[1..]);
      assert a == [a[0]] + a[1..] && b == [b[0]] + b[1..];
    }
  }

  /** The properties of `props` that `order` lists, in `order`'s order. */
  function Listed(order: seq<string>, props: Props): (r: seq<string>)
    decreases |order|
  {
    if order == [] then []
    else
      var last := order[|order| - 1];
      Listed(order[..|order| - 1], props) + (if ODict.HasKey(props, last) then [last] else [])
  }

  /** The keys not in `added`, in their order. */
  function Unlisted(keys: seq<string>, added: set<string>): (r: seq<string>)
    decreases |keys|
  {
    if keys == [] then []
    else
      var last := keys[|keys| - 1];
      Unlisted(keys[..|keys| - 1], added) + (if last !in added then [last] else [])
  }

  /** The remaining keys, alphabetically: `sorted(set(keys) - added)`. */
  function Remaining(props: Props): seq<string>
  {
    SortStrings(Unlisted(ODict.Keys(props), SetOf(Listed(PropertyOrder, props))))
  }

  /** The keys in the order the rule lists them. */
  function BodyKeys(props: Props): seq<string>
  {
    Listed(PropertyOrder, props) + Remaining(props)
  }

  function Line(k: string, v: string): string
  {
    "    " + k + ": " + v + ";"
  }

  function PropLines(props: Props, ks: seq<string>): (r: seq<string>)
    ensures |r| == |ks|
  {
    seq(|ks|, i requires 0 <= i < |ks| => Line(ks[i], ODict.Get(props, ks[i]).GetOr("")))
  }

  function RuleLines(selector: string, props: Props): seq<string>
  {
    [selector + " {"] + PropLines(props, BodyKeys(props)) + ["}", ""]
  }

  /** `format_qss_rule`. */
  function FormatRule(selector: string, props: Props): string
  {
    if props == [] then "" else Join(RuleLines(selector, props), "\n")
  }

  lemma {:induction false} ListedMembers(order: seq<string>, props: Props)
    ensures forall k :: k in Listed(order, props) <==> k in order && ODict.HasKey(props, k)
    ensures Distinct(order) ==> Distinct(Listed(order, props))
    decreases |order|
  {
    if order != [] {
      var init := order[..|order| - 1];
      var last := order[|order| - 1];
      ListedMembers(init, props);
      assert order == init + [last];
      if Distinct(order) {
        assert Distinct(init);
        assert last !in init;
        var l := Listed(init, props);
        DistinctConcat(l, if ODict.HasKey(props, last) then [last] else []);
      }
    }
  }

  lemma {:induction false} UnlistedMembers(keys: seq<string>, added: set<string>)
    ensures forall k :: k in Unlisted(keys, added) <==> k in keys && k !in added
    ensures Distinct(keys) ==> Distinct(Unlisted(keys, added))
    decreases |keys|
  {
    if keys != [] {
      var init := keys[..|keys| - 1];
      var last := keys[|keys| - 1];
      UnlistedMembers(init, added);
      assert keys == init + [last];
      if Distinct(keys) {
        assert Distinct(init);
        assert last !in init;
        DistinctConcat(Unlisted(init, added), if last !in added then [last] else []);
      }
    }
  }

  lemma SortedDistinct(s: seq<string>)
    requires StrictlySorted(s)
    ensures Distinct(s)
  {
    forall i, j | 0 <= i < j < |s| ensures s[i] != s[j] {
      LexIrreflexive(s[i]);
    }
  }

  /** The rule lists every property exactly once: the listed ones in the
      preferred order, then the others alphabetically. */
  lemma BodyKeysExactlyOnce(props: Props)
    requires ODict.Valid(props)
    ensures Distinct(BodyKeys(props))
    ensures forall k :: k in BodyKeys(props) <==> ODict.HasKey(props, k)
    ensures forall k :: k in Listed(PropertyOrder, props) ==> k in PropertyOrder
    ensures StrictlySorted(Remaining(props))
    ensures forall k :: k in Remaining(props) ==> k !in PropertyOrder
  {
    PropertyOrderDistinct();
    var l := Listed(PropertyOrder, props);
    ListedMembers(PropertyOrder, props);
    var keys := ODict.Keys(props);
    assert Distinct(keys);
    var u := Unlisted(keys, SetOf(l));
    UnlistedMembers(keys, SetOf(l));
    SortSpec(u);
    var r := SortStrings(u);
    forall k ensures k in r <==> k in u {
      assert k in r <==> k in multiset(r);
      assert k in u <==> k in multiset(u);
    }
    SortedDistinct(r);
    forall i, j | 0 <= i < |l| && 0 <= j < |r| ensures l[i] != r[j] {
      assert r[j] in u;
    }
    DistinctConcat(l, r);
    forall k ensures k in l + r <==> ODict.HasKey(props, k) {
      if ODict.HasKey(props, k) {
        var i :| 0 <= i < |props| && props[i].0 == k;
        assert keys[i] == k;
      }
    }
  }

  /** A rule is empty exactly when there are no properties. */
  lemma FormatRuleEmpty(selector: string, props: Props)
    ensures FormatRule(selector, props) == "" <==> props == []
  {
    if props != [] {
      var lines := RuleLines(selector, props);
      assert |lines| >= 2;
      assert Join(lines, "\n") == lines[0] + "\n" + Join(lines[1..], "\n");
    }
  }

  /** One more key adds its line at the end. */
  lemma PropLinesSnoc(props: Props, ks: seq<string>, k: string)
    ensures PropLines(props, ks + [k]) == PropLines(props, ks) + [Line(k, ODict.Get(props, k).GetOr(""))]
  {
    var a := PropLines(props, ks + [k]);
    var b := PropLines(props, ks) + [Line(k, ODict.Get(props, k).GetOr(""))];
    assert |a| == |b|;
    forall i | 0 <= i < |a| ensures a[i] == b[i] {
      if i < |ks| { assert (ks + [k])[i] == ks[i]; }
    }
  }

  /** The keys listed from one more entry of the order. */
  lemma ListedStep(props: Props, n: nat)
    requires n < |PropertyOrder|
    ensures Listed(PropertyOrder[..n + 1], props)
            == Listed(PropertyOrder[..n], props) + (if ODict.HasKey(props, PropertyOrder[n]) then [PropertyOrder[n]] else [])
  {
    var o := PropertyOrder[..n + 1];
    assert o[..|o| - 1] == PropertyOrder[..n];
    assert o[|o| - 1] == PropertyOrder[n];
  }

  /** The lines of the listed properties, in the preferred order, and the
      set of properties they cover. */
  method ListedLines(properties: Props) returns (lines: seq<string>, added: set<string>)
    ensures lines == PropLines(properties, Listed(PropertyOrder, properties))
    ensures added == SetOf(Listed(PropertyOrder, properties))
  {
    lines := [];
    added := {};
    for n := 0 to |PropertyOrder|
      invariant lines == PropLines(properties, Listed(PropertyOrder[..n], properties))
      invariant added == SetOf(Listed(PropertyOrder[..n], properties))
    {
      var prop := PropertyOrder[n];
      ghost var before := Listed(PropertyOrder[..n], properties);
      ListedStep(properties, n);
      if ODict.HasKey(properties, prop) {
        var value := ODict.Get(properties, prop).value;
        PropLinesSnoc(properties, before, prop);
        lines := lines + ["    " + prop + ": " + value + ";"];
        added := added + {prop};
      }
    }
    assert PropertyOrder[..|PropertyOrder|] == PropertyOrder;
  }

  /** The keys not yet added, in dictionary order. */
  method UnaddedKeys(keys: seq<string>, added: set<string>) returns (rest: seq<string>)
    ensures rest == Unlisted(keys, added)
  {
    rest := [];
    for n := 0 to |keys|
      invariant rest == Unlisted(keys[..n], added)
    {
      assert keys[..n + 1][..n] == keys[..n];
      if keys[n] !in added {
        rest := rest + [keys[n]];
      }
    }
    assert keys[..|keys|] == keys;
  }

  /** One `    prop: value;` line per key, in order. */
  method KeyLines(properties: Props, ks: seq<string>) returns (lines: seq<string>)
    ensures lines == PropLines(properties, ks)
  {
    lines := [];
    for n := 0 to |ks|
      invariant lines == PropLines(properties, ks[..n])
    {
      var prop := ks[n];
      var value := ODict.Get(properties, prop).GetOr("");
      assert ks[..n + 1] == ks[..n] + [prop];
      PropLinesSnoc(properties, ks[..n], prop);
      lines := lines + ["    " + prop + ": " + value + ";"];
    }
    assert ks[..|ks|] == ks;
  }

  /** `format_qss_rule`. */
  method FormatQssRule(selector: string, properties: Props) returns (rule: string)
    ensures rule == FormatRule(selector, properties)
  {
    if properties == [] {
      return "";
    }
    var listedLines, added := ListedLines(properties);
    var rest := UnaddedKeys(ODict.Keys(properties), added);
    var remaining := SortStrings(rest);
    var restLines := KeyLines(properties, remaining);
    assert remaining == Remaining(properties);
    assert PropLines(properties, BodyKeys(properties)) == listedLines + restLines;
    var lines := [selector + " {"] + listedLines + restLines + ["}", ""];
    assert lines == RuleLines(selector, properties);
    rule := Join(lines, "\n");
  }

  // ------------------------------------------------------------------
  // process_selectors_recursively

  /** A selector object of the JSON description: its attribute `value`
      (empty when absent), its `CSSStyleDeclaration`, its `qss tweak`
      list, its `no states` flag and its nested `selector` objects. The
      file's top level has the same shape, its `selector` entry holding
      the top-level selectors. */
  datatype Sel = Sel(value: string, css: Css, tweak: seq<string>, noStates: bool,
                     nested: seq<(string, Sel)>)

  type States = ODict.Dict<string, Css>

  /** The rules by selector and the tweaks by selector. */
  datatype Output = Output(rules: ODict.Dict<string, string>, tweaks: ODict.Dict<string, seq<string>>)

  /** What the walk reads besides the selectors: the converter's ignore
      patterns and font parser, the widget class and the file's states. */
  datatype Env = Env(ignoreProps: seq<string>, parseFont: string -> Props,
                     widgetClass: string, states: States)

  /** The attribute chain of a selector: its parent's, extended by its
      `(name, value)` pair when both are non-empty. */
  function ChildParts(parts: seq<(string, string)>, name: string, value: string): seq<(string, string)>
  {
    if name != [] && value != [] then parts + [(name, value)] else parts
  }

  /** The parent's merged properties overridden by the selector's own
      converted ones. */
  function Merged(env: Env, sel: Sel, parent: Props): Result<Props, QssError>
  {
    if sel.css == [] then Ok(parent)
    else
      match ConvertProps(env.ignoreProps, env.parseFont, sel.css)
      case Err(e) => Err(e)
      case Ok(own) => Ok(ODict.Update(parent, own))
  }

  /** The state rules for one selector chain, from the states in order:
      each state with a pseudo-state and non-empty converted properties
      gives a rule of its own properties only. */
  function StateRules(env: Env, parts: seq<(string, string)>, states: States,
                      rules: ODict.Dict<string, string>): Result<ODict.Dict<string, string>, QssError>
    decreases |states|
  {
    if states == [] then Ok(rules)
    else
      var next :=
        match ODict.Get(StatePseudo, states[0].0)
        case None => Ok(rules)
        case Some(pseudo) =>
          match ConvertProps(env.ignoreProps, env.parseFont, states[0].1)
          case Err(e) => Err(e)
          case Ok(sp) =>
            if sp == [] then Ok(rules)
            else
              var s := CompoundSelector(env.widgetClass, parts, pseudo);
              Ok(ODict.Set(rules, s, FormatRule(s, sp)));
      match next
      case Err(e) => Err(e)
      case Ok(r) => StateRules(env, parts, states[1..], r)
  }

  /** The rules and tweak of one selector, before its nested selectors. */
  function OwnRules(env: Env, sel: Sel, parts: seq<(string, string)>, merged: Props, out: Output): Result<Output, QssError>
  {
    if merged == [] then Ok(out)
    else
      var s := CompoundSelector(env.widgetClass, parts, "");
      var rules := ODict.Set(out.rules, s, FormatRule(s, merged));
      var tweaks := ODict.Set(out.tweaks, s, sel.tweak);
      if env.states != [] && !sel.noStates then
        match StateRules(env, parts, env.states, rules)
        case Err(e) => Err(e)
        case Ok(r) => Ok(Output(r, tweaks))
      else Ok(Output(rules, tweaks))
  }

  /** One iteration of the walk: selector `name` under a parent chain and
      the parent's merged properties. */
  function ProcessOne(env: Env, name: string, sel: Sel, parts: seq<(string, string)>, parent: Props,
                      out: Output): Result<Output, QssError>
    decreases sel, |sel.nested| + 1
  {
    var chain := ChildParts(parts, name, sel.value);
    match Merged(env, sel, parent)
    case Err(e) => Err(e)
    case Ok(merged) =>
      match OwnRules(env, sel, chain, merged, out)
      case Err(e) => Err(e)
      case Ok(o) =>
        if sel.nested == [] then Ok(o)
        else
          match ProcessFrom(env, sel, 0, chain, merged, Output([], []))
          case Err(e) => Err(e)
          case Ok(n) => Ok(Output(ODict.Update(o.rules, n.rules), ODict.Update(o.tweaks, n.tweaks)))
  }

  /** The walk over `holder`'s selectors from position `i` on. */
  function ProcessFrom(env: Env, holder: Sel, i: nat, parts: seq<(string, string)>, parent: Props,
                       out: Output): Result<Output, QssError>
    requires i <= |holder.nested|
    decreases holder, |holder.nested| - i
  {
    if i == |holder.nested| then Ok(out)
    else
      match ProcessOne(env, holder.nested[i].0, holder.nested[i].1, parts, parent, out)
      case Err(e) => Err(e)
      case Ok(o) => ProcessFrom(env, holder, i + 1, parts, parent, o)
  }

  /** `process_selectors_recursively` over the selectors `holder` holds. */
  function ProcessSelectors(env: Env, holder: Sel, parts: seq<(string, string)>, parent: Props): Result<Output, QssError>
  {
    ProcessFrom(env, holder, 0, parts, parent, Output([], []))
  }

  /** Merging: a property the selector sets takes its value, any other
      keeps the parent's. */
  lemma MergedPrecedence(env: Env, sel: Sel, parent: Props, k: string)
    requires Merged(env, sel, parent).Ok? && sel.css != []
    ensures var own := ConvertProps(env.ignoreProps, env.parseFont, sel.css).value;
            ODict.Get(Merged(env, sel, parent).value, k)
            == if ODict.HasKey(own, k) then ODict.Get(own, k) else ODict.Get(parent, k)
  {
    var own := ConvertProps(env.ignoreProps, env.parseFont, sel.css).value;
    ConvertPropsClean(env.ignoreProps, env.parseFont, sel.css);
    ODict.UpdateGet(parent, own, k);
  }

  /** A state rule is written only for a state with a pseudo-state and
      non-empty converted properties, and holds those properties only. */
  lemma {:induction false} StateRulesOwnProps(env: Env, parts: seq<(string, string)>, states: States,
                                              rules: ODict.Dict<string, string>, k: string)
    requires StateRules(env, parts, states, rules).Ok?
    requires ODict.Get(StateRules(env, parts, states, rules).value, k) != ODict.Get(rules, k)
    ensures exists j :: 0 <= j < |states| && StateRuleAt(env, parts, states, j, k, StateRules(env, parts, states, rules).value)
    decreases |states|
  {
    var r := StateRules(env, parts, states, rules).value;
    var pseudo := ODict.Get(StatePseudo, states[0].0);
    var next :=
      if pseudo.None? then rules
      else
        var sp := ConvertProps(env.ignoreProps, env.parseFont, states[0].1).value;
        if sp == [] then rules
        else
          var s := CompoundSelector(env.widgetClass, parts, pseudo.value);
          ODict.Set(rules, s, FormatRule(s, sp));
    assert StateRules(env, parts, states[1..], next) == Ok(r);
    if ODict.Get(r, k) != ODict.Get(next, k) {
      StateRulesOwnProps(env, parts, states[1..], next, k);
      var j :| 0 <= j < |states[1..]| && StateRuleAt(env, parts, states[1..], j, k, r);
      assert states[1..][j] == states[j + 1];
      assert StateRuleAt(env, parts, states, j + 1, k, r);
    } else {
      var sp := ConvertProps(env.ignoreProps, env.parseFont, states[0].1).value;
      var s := CompoundSelector(env.widgetClass, parts, pseudo.value);
      if k != s {
        ODict.SetOther(rules, s, FormatRule(s, sp), k);
      }
      assert StateRuleAt(env, parts, states, 0, k, r);
    }
  }

  /** The state at position `j` wrote key `k` of `rules`: the key is the
      chain with the state's pseudo-state, and the rule formats the state's
      own converted properties. */
  predicate StateRuleAt(env: Env, parts: seq<(string, string)>, states: States, j: nat, k: string,
                        rules: ODict.Dict<string, string>)
    requires j < |states|
  {
    var pseudo := ODict.Get(StatePseudo, states[j].0);
    var sp := ConvertProps(env.ignoreProps, env.parseFont, states[j].1);
    pseudo.Some? && sp.Ok? && sp.value != []
    && k == CompoundSelector(env.widgetClass, parts, pseudo.value)
    && ODict.Get(rules, k) == Some(FormatRule(k, sp.value))
  }

  /** Keys that start with the widget class. */
  predicate UnderWidget<V>(d: ODict.Dict<string, V>, widgetClass: string)
  {
    forall i :: 0 <= i < |d| ==> StartsWith(d[i].0, widgetClass)
  }

  lemma SetUnderWidget<V>(d: ODict.Dict<string, V>, widgetClass: string, k: string, v: V)
    requires UnderWidget(d, widgetClass) && StartsWith(k, widgetClass)
    ensures UnderWidget(ODict.Set(d, k, v), widgetClass)
  {
    ODict.SetEntries(d, k, v);
    var r := ODict.Set(d, k, v);
    forall i | 0 <= i < |r| ensures StartsWith(r[i].0, widgetClass) {
      if r[i] != (k, v) {
        var j :| 0 <= j < |d| && d[j] == r[i];
      }
    }
  }

  lemma {:induction false} UpdateUnderWidget<V>(d: ODict.Dict<string, V>, e: ODict.Dict<string, V>, widgetClass: string)
    requires UnderWidget(d, widgetClass) && UnderWidget(e, widgetClass)
    ensures UnderWidget(ODict.Update(d, e), widgetClass)
    decreases |e|
  {
    if e != [] {
      SetUnderWidget(d, widgetClass, e[0].0, e[0].1);
      assert UnderWidget(e[1..], widgetClass) by {
        forall i | 0 <= i < |e[1..]| ensures StartsWith(e[1..][i].0, widgetClass) {
          assert e[1..][i] == e[i + 1];
        }
      }
      UpdateUnderWidget(ODict.Set(d, e[0].0, e[0].1), e[1..], widgetClass);
    }
  }

  lemma {:induction false} StateRulesUnderWidget(env: Env, parts: seq<(string, string)>, states: States,
                                                  rules: ODict.Dict<string, string>)
    requires UnderWidget(rules, env.widgetClass) && StateRules(env, parts, states, rules).Ok?
    ensures UnderWidget(StateRules(env, parts, states, rules).value, env.widgetClass)
    decreases |states|
  {
    if states != [] {
      match ODict.Get(StatePseudo, states[0].0)
      case None =>
        StateRulesUnderWidget(env, parts, states[1..], rules);
      case Some(pseudo) =>
        var sp := ConvertProps(env.ignoreProps, env.parseFont, states[0].1).value;
        if sp == [] {
          StateRulesUnderWidget(env, parts, states[1..], rules);
        } else {
          var s := CompoundSelector(env.widgetClass, parts, pseudo);
          SetUnderWidget(rules, env.widgetClass, s, FormatRule(s, sp));
          StateRulesUnderWidget(env, parts, states[1..], ODict.Set(rules, s, FormatRule(s, sp)));
        }
    }
  }

  lemma OwnRulesUnderWidget(env: Env, sel: Sel, parts: seq<(string, string)>, merged: Props, out: Output)
    requires UnderWidget(out.rules, env.widgetClass) && UnderWidget(out.tweaks, env.widgetClass)
    requires OwnRules(env, sel, parts, merged, out).Ok?
    ensures var o := OwnRules(env, sel, parts, merged, out).value;
            UnderWidget(o.rules, env.widgetClass) && UnderWidget(o.tweaks, env.widgetClass)
  {
    if merged != [] {
      var s := CompoundSelector(env.widgetClass, parts, "");
      SetUnderWidget(out.rules, env.widgetClass, s, FormatRule(s, merged));
      SetUnderWidget(out.tweaks, env.widgetClass, s, sel.tweak);
      if env.states != [] && !sel.noStates {
        StateRulesUnderWidget(env, parts, env.states, ODict.Set(out.rules, s, FormatRule(s, merged)));
      }
    }
  }

  /** Every rule and every tweak the walk records is keyed by a selector
      that starts with the widget class. */
  lemma {:induction false} ProcessOneUnderWidget(env: Env, name: string, sel: Sel, parts: seq<(string, string)>,
                                                 parent: Props, out: Output)
    requires UnderWidget(out.rules, env.widgetClass) && UnderWidget(out.tweaks, env.widgetClass)
    requires ProcessOne(env, name, sel, parts, parent, out).Ok?
    ensures var o := ProcessOne(env, name, sel, parts, parent, out).value;
            UnderWidget(o.rules, env.widgetClass) && UnderWidget(o.tweaks, env.widgetClass)
    decreases sel, |sel.nested| + 1
  {
    var chain := ChildParts(parts, name, sel.value);
    var merged := Merged(env, sel, parent).value;
    OwnRulesUnderWidget(env, sel, chain, merged, out);
    if sel.nested != [] {
      var o := OwnRules(env, sel, chain, merged, out).value;
      ProcessFromUnderWidget(env, sel, 0, chain, merged, Output([], []));
      var n := ProcessFrom(env, sel, 0, chain, merged, Output([], [])).value;
      UpdateUnderWidget(o.rules, n.rules, env.widgetClass);
      UpdateUnderWidget(o.tweaks, n.tweaks, env.widgetClass);
    }
  }

  lemma {:induction false} ProcessFromUnderWidget(env: Env, holder: Sel, i: nat, parts: seq<(string, string)>,
                                                  parent: Props, out: Output)
    requires i <= |holder.nested|
    requires UnderWidget(out.rules, env.widgetClass) && UnderWidget(out.tweaks, env.widgetClass)
    requires ProcessFrom(env, holder, i, parts, parent, out).Ok?
    ensures var o := ProcessFrom(env, holder, i, parts, parent, out).value;
            UnderWidget(o.rules, env.widgetClass) && UnderWidget(o.tweaks, env.widgetClass)
    decreases holder, |holder.nested| - i
  {
    if i < |holder.nested| {
      ProcessOneUnderWidget(env, holder.nested[i].0, holder.nested[i].1, parts, parent, out);
      var o := ProcessOne(env, holder.nested[i].0, holder.nested[i].1, parts, parent, out).value;
      ProcessFromUnderWidget(env, holder, i + 1, parts, parent, o);
    }
  }

  /** A selector whose merged properties are empty records no rule and no
      tweak of its own. */
  lemma EmptyMergedNoRule(env: Env, sel: Sel, parts: seq<(string, string)>, out: Output)
    ensures OwnRules(env, sel, parts, [], out) == Ok(out)
  {
  }

  /** Under `no states`, or with no states, a selector records exactly one
      rule: its own, under its compound selector. */
  lemma NoStatesOneRule(env: Env, sel: Sel, parts: seq<(string, string)>, merged: Props, out: Output, k: string)
    requires merged != [] && (sel.noStates || env.states == [])
    ensures var s := CompoundSelector(env.widgetClass, parts, "");
            var o := OwnRules(env, sel, parts, merged, out);
            o.Ok? && ODict.Get(o.value.rules, k) == (if k == s then Some(FormatRule(s, merged)) else ODict.Get(out.rules, k))
  {
    var s := CompoundSelector(env.widgetClass, parts, "");
    if k != s {
      ODict.SetOther(out.rules, s, FormatRule(s, merged), k);
    }
  }

  /** `generate_qss_selector`'s chain for the nested selectors: the parent
      chain extended by the selector's own attribute. */
  lemma ChildSelectorExtends(env: Env, parts: seq<(string, string)>, name: string, value: string)
    requires name != [] && value != []
    ensures CompoundSelector(env.widgetClass, ChildParts(parts, name, value), "")
            == CompoundSelector(env.widgetClass, parts, "") + "[" + name + "=\"" + value + "\"]"
  {
    NestedSelectorExtends(env.widgetClass, parts, name, value);
  }

  // ------------------------------------------------------------------
  // The converter object

  /** The font shorthand's properties, converted and assigned one by one. */
  method AddFontProperties(q: Props, font: Props) returns (r: Props)
    ensures r == AddFontProps(q, font)
  {
    r := q;
    for j := 0 to |font|
      invariant AddFontProps(q, font) == AddFontProps(r, font[j..])
    {
      assert font[j..][0] == font[j] && font[j..][1..] == font[j + 1..];
      var fontProp := font[j].0;
      var fontVal := font[j].1;
      if ODict.HasKey(CssToQss, fontProp) {
        var qssFontProp := ODict.Get(CssToQss, fontProp).value;
        var processed := if fontProp == "fontFamily" then CleanFontFamily(fontVal) else fontVal;
        if processed != [] && processed !in DefaultValues {
          r := ODict.Set(r, qssFontProp, RStripChar(processed, ';'));
        }
      }
    }
  }

  /** `CSSToQSSConverter`: the ignore patterns of the file being processed
      and the font-shorthand parser. */
  class Converter {
    var ignoreProps: seq<string>
    const parseFont: string -> Props

    constructor (ignoreProps: seq<string>, parseFont: string -> Props)
      ensures this.ignoreProps == ignoreProps && this.parseFont == parseFont
    {
      this.ignoreProps := ignoreProps;
      this.parseFont := parseFont;
    }

    /** Reading a file's `ignore props` list. */
    method SetIgnoreProps(patterns: seq<string>)
      modifies this
      ensures ignoreProps == patterns
    {
      ignoreProps := patterns;
    }

    /** One iteration of `convert_css_properties`'s loop. */
    method ConvertCssEntry(qss: Props, cssProp: string, value: CssValue) returns (r: Result<Props, QssError>)
      ensures r == ConvertEntry(ignoreProps, parseFont, qss, cssProp, value)
    {
      if value.NonString? {
        return Ok(qss);
      }
      var cssValue := value.s;
      if !ShouldInclude(cssProp, cssValue, ignoreProps) {
        return Ok(qss);
      }
      var qssProp := ODict.Get(CssToQss, cssProp).value;
      if HasVarRef(cssValue) {
        return Err(UnresolvedVariable(cssValue));
      }
      if cssProp == "font" {
        var q := AddFontProperties(qss, parseFont(cssValue));
        return Ok(q);
      }
      var qssValue: string;
      if ColourProp(cssProp, qssProp) {
        var c := ConvertColor(cssValue);
        if c.Err? {
          return Err(c.error);
        }
        qssValue := c.value;
      } else if cssProp == "fontFamily" {
        qssValue := CleanFontFamily(cssValue);
      } else {
        qssValue := cssValue;
      }
      if qssValue != [] && qssValue !in DefaultValues {
        return Ok(ODict.Set(qss, qssProp, RStripChar(qssValue, ';')));
      }
      return Ok(qss);
    }

    /** `convert_css_properties`. */
    method ConvertCssProperties(css: Css) returns (r: Result<Props, QssError>)
      ensures r == ConvertProps(ignoreProps, parseFont, css)
    {
      var qss: Props := [];
      for i := 0 to |css|
        invariant ODict.Valid(qss) && Clean(qss)
        invariant ConvertAll(ignoreProps, parseFont, [], css) == ConvertAll(ignoreProps, parseFont, qss, css[i..])
      {
        assert css[i..][0] == css[i] && css[i..][1..] == css[i + 1..];
        var step := ConvertCssEntry(qss, css[i].0, css[i].1);
        if step.Err? {
          return Err(step.error);
        }
        EntryClean(ignoreProps, parseFont, qss, css[i].0, css[i].1);
        qss := step.value;
      }
      assert css[|css|..] == [];
      var optimized := OptimizeProperties(qss);
      return Ok(optimized);
    }

    /** The state rules for one selector chain. */
    method AddStateRules(widgetClass: string, parts: seq<(string, string)>, states: States,
                         rules: ODict.Dict<string, string>) returns (r: Result<ODict.Dict<string, string>, QssError>)
      ensures r == StateRules(Env(ignoreProps, parseFont, widgetClass, states), parts, states, rules)
    {
      ghost var env := Env(ignoreProps, parseFont, widgetClass, states);
      var acc := rules;
      for j := 0 to |states|
        invariant StateRules(env, parts, states, rules) == StateRules(env, parts, states[j..], acc)
      {
        assert states[j..][0] == states[j] && states[j..][1..] == states[j + 1..];
        var cssState := states[j].0;
        if ODict.HasKey(StatePseudo, cssState) {
          var stateProps := ConvertCssProperties(states[j].1);
          if stateProps.Err? {
            return Err(stateProps.error);
          }
          if stateProps.value != [] {
            var pseudo := ODict.Get(StatePseudo, cssState).value;
            var stateSelector := CompoundSelector(widgetClass, parts, pseudo);
            var stateRule := FormatQssRule(stateSelector, stateProps.value);
            acc := ODict.Set(acc, stateSelector, stateRule);
          }
        }
      }
      assert states[|states|..] == [];
      return Ok(acc);
    }

    /** One selector of the walk: its merged properties, its rule, tweak and
        state rules, then its nested selectors. */
    method ProcessSelector(widgetClass: string, name: string, sel: Sel, states: States,
                           parts: seq<(string, string)>, parent: Props, out: Output) returns (r: Result<Output, QssError>)
      ensures r == ProcessOne(Env(ignoreProps, parseFont, widgetClass, states), name, sel, parts, parent, out)
      decreases sel, 2
    {
      ghost var env := Env(ignoreProps, parseFont, widgetClass, states);
      var chain := parts;
      if name != [] && sel.value != [] {
        chain := parts + [(name, sel.value)];
      }
      var merged := parent;
      if sel.css != [] {
        var own := ConvertCssProperties(sel.css);
        if own.Err? {
          return Err(own.error);
        }
        merged := ODict.Update(parent, own.value);
      }
      assert Merged(env, sel, parent) == Ok(merged);
      var o := out;
      if merged != [] {
        var selector := CompoundSelector(widgetClass, chain, "");
        var tweaks := ODict.Set(o.tweaks, selector, sel.tweak);
        var rule := FormatQssRule(selector, merged);
        var rules := ODict.Set(o.rules, selector, rule);
        if states != [] && !sel.noStates {
          var sr := AddStateRules(widgetClass, chain, states, rules);
          if sr.Err? {
            return Err(sr.error);
          }
          rules := sr.value;
        }
        o := Output(rules, tweaks);
      }
      assert OwnRules(env, sel, chain, merged, out) == Ok(o);
      if sel.nested != [] {
        var n := ProcessSelectorsRecursively(widgetClass, sel, states, chain, merged);
        if n.Err? {
          return Err(n.error);
        }
        o := Output(ODict.Update(o.rules, n.value.rules), ODict.Update(o.tweaks, n.value.tweaks));
      }
      return Ok(o);
    }

    /** `process_selectors_recursively` over the selectors `holder` holds,
        under a parent chain and the parent's merged properties. */
    method ProcessSelectorsRecursively(widgetClass: string, holder: Sel, states: States,
                                       parts: seq<(string, string)>, parent: Props) returns (r: Result<Output, QssError>)
      ensures r == ProcessSelectors(Env(ignoreProps, parseFont, widgetClass, states), holder, parts, parent)
      decreases holder, 1
    {
      ghost var env := Env(ignoreProps, parseFont, widgetClass, states);
      var out := Output([], []);
      for i := 0 to |holder.nested|
        invariant ProcessSelectors(env, holder, parts, parent) == ProcessFrom(env, holder, i, parts, parent, out)
      {
        var one := ProcessSelector(widgetClass, holder.nested[i].0, holder.nested[i].1, states, parts, parent, out);
        if one.Err? {
          return Err(one.error);
        }
        out := one.value;
      }
      return Ok(out);
    }
  }
}
