/** The CSS-to-QSS converter: colour normalisation, property filtering,
    font-family quoting, shorthand pruning, selector generation, rule
    formatting and the recursive walk over nested selectors. Regular
    expressions are explicit scanners over ASCII digits, word characters and
    Python whitespace. */
module QssConverter {
  import opened Wrappers
  import ODict
  import opened Text

  type Props = ODict.Dict<string, string>

  /** What the converter raises: an unresolved `--name-` variable, or a
      `float()` of an alpha text that is not a number (both `ValueError`). */
  datatype QssError = UnresolvedVariable(value: string) | InvalidFloat(text: string)

  /** CSS property names (camel- or kebab-case) and their QSS names. */
  const CssToQss: Props := [
    ("backgroundColor", "background-color"), ("background-color", "background-color"),
    ("backgroundImage", "background-image"), ("background-image", "background-image"),
    ("color", "color"),
    ("borderRadius", "border-radius"), ("borderWidth", "border-width"),
    ("borderStyle", "border-style"), ("borderColor", "border-color"),
    ("borderTopWidth", "border-top-width"), ("borderRightWidth", "border-right-width"),
    ("borderBottomWidth", "border-bottom-width"), ("borderLeftWidth", "border-left-width"),
    ("borderTopStyle", "border-top-style"), ("borderRightStyle", "border-right-style"),
    ("borderBottomStyle", "border-bottom-style"), ("borderLeftStyle", "border-left-style"),
    ("borderTopColor", "border-top-color"), ("borderRightColor", "border-right-color"),
    ("borderBottomColor", "border-bottom-color"), ("borderLeftColor", "border-left-color"),
    ("borderTopLeftRadius", "border-top-left-radius"), ("borderTopRightRadius", "border-top-right-radius"),
    ("borderBottomLeftRadius", "border-bottom-left-radius"), ("borderBottomRightRadius", "border-bottom-right-radius"),
    ("padding", "padding"), ("paddingTop", "padding-top"), ("paddingRight", "padding-right"),
    ("paddingBottom", "padding-bottom"), ("paddingLeft", "padding-left"),
    ("margin", "margin"), ("marginTop", "margin-top"), ("marginRight", "margin-right"),
    ("marginBottom", "margin-bottom"), ("marginLeft", "margin-left"),
    ("font", "font"), ("fontFamily", "font-family"), ("fontSize", "font-size"),
    ("fontWeight", "font-weight"), ("fontStyle", "font-style"), ("lineHeight", "line-height"),
    ("letterSpacing", "letter-spacing"),
    ("textAlign", "text-align"), ("textDecoration", "text-decoration"), ("textTransform", "text-transform"),
    ("opacity", "opacity"), ("outline", "outline"), ("outlineColor", "outline-color"),
    ("outlineWidth", "outline-width"), ("outlineStyle", "outline-style")
  ]

  /** CSS states and their QSS pseudo-states. */
  const StatePseudo: Props := [
    ("hover", ":hover"), ("active", ":pressed"), ("focus", ":focus"), ("disabled", ":disabled")
  ]

  // ------------------------------------------------------------------
  // convert_color

  /** The three numbers of an `rgb()` or `rgba()` colour, as written. */
  datatype Rgb = Rgb(r: string, g: string, b: string)

  ghost predicate AllDigits(s: string)
  {
    forall i :: 0 <= i < |s| ==> IsDigit(s[i])
  }

  ghost predicate AllSpace(s: string)
  {
    forall i :: 0 <= i < |s| ==> IsSpace(s[i])
  }

  /** `\d+`: a non-empty leading digit run and what follows it. */
  function Num(s: string): (r: Option<(string, string)>)
    ensures r.Some? ==> r.value.0 != [] && AllDigits(r.value.0) && s == r.value.0 + r.value.1
  {
    var n := LeadCount(s, IsDigit);
    assert s == s[..n] + s[n..];
    if n == 0 then None else Some((s[..n], s[n..]))
  }

  /** `,\s*`: what follows the separator. */
  function Sep(s: string): (r: Option<string>)
    ensures r.Some? ==> |r.value| < |s|
  {
    if s != [] && s[0] == ',' then Some(s[1..][LeadCount(s[1..], IsSpace)..]) else None
  }

  /** `\d+,\s*`: the number and what follows the separator. */
  function NumSep(s: string): (r: Option<(string, string)>)
    ensures r.Some? ==> r.value.0 != [] && AllDigits(r.value.0)
  {
    var n := Num(s);
    if n.None? then None
    else
      var t := Sep(n.value.1);
      if t.None? then None else Some((n.value.0, t.value))
  }

  /** `(\d+),\s*(\d+),\s*(\d+)`: the three groups and what follows. */
  function Triple(s: string): (r: Option<(Rgb, string)>)
    ensures r.Some? ==> var c := r.value.0;
                        c.r != [] && c.g != [] && c.b != []
                        && AllDigits(c.r) && AllDigits(c.g) && AllDigits(c.b)
  {
    var p := NumSep(s);
    if p.None? then None else
    var q := NumSep(p.value.1);
    if q.None? then None else
    var n := Num(q.value.1);
    if n.None? then None else
    Some((Rgb(p.value.0, q.value.0, n.value.0), n.value.1))
  }

  /** `re.match(r"rgb\((\d+),\s*(\d+),\s*(\d+)\)", v)`: anchored at the start
      only. */
  function MatchRgb(v: string): (r: Option<Rgb>)
    ensures r.Some? ==> r.value.r != [] && r.value.g != [] && r.value.b != []
                        && AllDigits(r.value.r) && AllDigits(r.value.g) && AllDigits(r.value.b)
  {
    if !StartsWith(v, "rgb(") then None
    else
      var t := Triple(v[4..]);
      if t.Some? && t.value.1 != [] && t.value.1[0] == ')' then Some(t.value.0) else None
  }

  predicate IsAlphaChar(c: char) { IsDigit(c) || c == '.' }

  ghost predicate AllAlpha(s: string)
  {
    forall i :: 0 <= i < |s| ==> IsAlphaChar(s[i])
  }

  /** `[\d.]+`: a non-empty leading run of digits and dots, and what follows. */
  function AlphaRun(s: string): (r: Option<(string, string)>)
    ensures r.Some? ==> r.value.0 != [] && AllAlpha(r.value.0)
  {
    var n := LeadCount(s, IsAlphaChar);
    if n == 0 then None else Some((s[..n], s[n..]))
  }

  /** `re.match(r"rgba\((\d+),\s*(\d+),\s*(\d+),\s*([\d.]+)\)", v)`. */
  function MatchRgba(v: string): (r: Option<(Rgb, string)>)
    ensures r.Some? ==> r.value.1 != [] && AllAlpha(r.value.1)
  {
    if !StartsWith(v, "rgba(") then None
    else
      var t := Triple(v[5..]);
      if t.None? then None else
      var a := AlphaTail(t.value.1);
      if a.None? then None else Some((t.value.0, a.value))
  }

  /** `,\s*([\d.]+)\)`: the alpha text. */
  function AlphaTail(s: string): (r: Option<string>)
    ensures r.Some? ==> r.value != [] && AllAlpha(r.value)
  {
    var u := Sep(s);
    if u.None? then None else
    var a := AlphaRun(u.value);
    if a.Some? && a.value.1 != [] && a.value.1[0] == ')' then Some(a.value.0) else None
  }

  /** How `float(a)` compares with 0 and 1. */
  datatype Alpha = Zero | One | Fraction

  function CountChar(s: string, c: char): nat
  {
    if s == [] then 0 else (if s[0] == c then 1 else 0) + CountChar(s[1..], c)
  }

  /** The value of a digit string read as the digits after a decimal point,
      scaled by `10^|s|`. */
  function Pow10(n: nat): (r: nat)
    ensures r >= 1
  {
    if n == 0 then 1 else 10 * Pow10(n - 1)
  }

  /** `float(a)` for a text of digits and dots: `Err` when Python refuses it
      (no digit, or more than one dot); otherwise the exact decimal value
      `whole + frac / 10^|frac|` compared with 0 and 1. */
  function AlphaKind(a: string): (r: Result<Alpha, QssError>)
    requires AllAlpha(a)
  {
    if CountChar(a, '.') > 1 || CountChar(a, '.') == |a| then Err(InvalidFloat(a))
    else
      var w := LeadCount(a, IsDigit);
      var whole := a[..w];
      var frac := if w < |a| then a[w + 1..] else [];
      FracDigits(a, w);
      var num := DigitsValue(whole) * Pow10(|frac|) + DigitsValue(frac);
      if num == 0 then Ok(Zero)
      else if num == Pow10(|frac|) then Ok(One)
      else Ok(Fraction)
  }

  /** With at most one dot, what follows the leading digits and the dot is
      all digits. */
  lemma FracDigits(a: string, w: nat)
    requires AllAlpha(a) && CountChar(a, '.') <= 1 && w == LeadCount(a, IsDigit)
    ensures w < |a| ==> AllDigits(a[w + 1..])
  {
    if w < |a| {
      assert a[w] == '.';
      CountSplit(a, w, '.');
      NoneCounted(a[w + 1..], '.');
    }
  }

  lemma {:induction false} CountSplit(s: string, w: nat, c: char)
    requires w < |s| && s[w] == c
    ensures CountChar(s, c) >= 1 + CountChar(s[w + 1..], c)
    decreases w
  {
    if w > 0 {
      assert s[1..][w - 1] == c;
      CountSplit(s[1..], w - 1, c);
      assert s[1..][w..] == s[w + 1..];
    }
  }

  lemma {:induction false} NoneCounted(s: string, c: char)
    requires CountChar(s, c) == 0
    ensures forall i :: 0 <= i < |s| ==> s[i] != c
  {
    if s != [] {
      NoneCounted(s[1..], c);
      forall i | 1 <= i < |s| ensures s[i] != c {
        assert s[i] == s[1..][i - 1];
      }
    }
  }

  /** `rgb(r, g, b)`, the form the converter emits. */
  function RgbText(c: Rgb): string
  {
    "rgb(" + c.r + ", " + c.g + ", " + c.b + ")"
  }

  /** `convert_color`: empty, `auto`, `none` and `transparent` pass through;
      a leading `rgb()` is re-emitted with single spaces; an `rgba()` with
      alpha 0 becomes `transparent`, with alpha 1 the `rgb()` form, and is
      kept as written otherwise; anything else is returned unchanged. */
  function ConvertColor(v: string): (r: Result<string, QssError>)
    ensures v in ["", "auto", "none", "transparent"] ==> r == Ok(v)
    ensures r.Ok? ==> r.value == v || r.value == "transparent" || exists c :: r.value == RgbText(c)
  {
    if v == [] || v in ["auto", "none", "transparent"] then Ok(v)
    else
      var m := MatchRgb(v);
      if m.Some? then Ok(RgbText(m.value))
      else
        var ma := MatchRgba(v);
        if ma.None? then Ok(v)
        else match AlphaKind(ma.value.1)
          case Err(e) => Err(e)
          case Ok(Zero) => Ok("transparent")
          case Ok(One) => Ok(RgbText(ma.value.0))
          case Ok(Fraction) => Ok(v)
  }

  lemma NumRecognised(d: string, rest: string)
    requires d != [] && AllDigits(d)
    requires rest == [] || !IsDigit(rest[0])
    ensures Num(d + rest) == Some((d, rest))
  {
    LeadCountConcat(d, rest, IsDigit);
    assert (d + rest)[..|d|] == d;
    assert (d + rest)[|d|..] == rest;
  }

  lemma SepRecognised(w: string, rest: string)
    requires AllSpace(w)
    requires rest == [] || !IsSpace(rest[0])
    ensures Sep([','] + (w + rest)) == Some(rest)
  {
    assert ([','] + (w + rest))[1..] == w + rest;
    LeadCountConcat(w, rest, IsSpace);
    assert (w + rest)[|w|..] == rest;
  }

  /** Three numbers written `r,<spaces>g,<spaces>b` are recognised, whatever
      follows them. */
  lemma TripleRecognised(c: Rgb, w1: string, w2: string, rest: string)
    requires c.r != [] && c.g != [] && c.b != [] && AllDigits(c.r) && AllDigits(c.g) && AllDigits(c.b)
    requires AllSpace(w1) && AllSpace(w2)
    requires rest == [] || !IsDigit(rest[0])
    ensures Triple(c.r + ([','] + (w1 + (c.g + ([','] + (w2 + (c.b + rest))))))) == Some((c, rest))
  {
    var t3 := [','] + (w2 + (c.b + rest));
    var t1 := [','] + (w1 + (c.g + t3));
    assert IsDigit(c.g[0]) && IsDigit(c.b[0]);
    NumSepRecognised(c.r, w1, c.g + t3);
    NumSepRecognised(c.g, w2, c.b + rest);
    NumRecognised(c.b, rest);
  }

  lemma NumSepRecognised(d: string, w: string, rest: string)
    requires d != [] && AllDigits(d) && AllSpace(w)
    requires rest == [] || !IsSpace(rest[0])
    ensures NumSep(d + ([','] + (w + rest))) == Some((d, rest))
  {
    NumRecognised(d, [','] + (w + rest));
    SepRecognised(w, rest);
  }

  /** Any `rgb(r,<spaces>g,<spaces>b)` prefix, whatever follows it, is
      recognised with its three numbers. */
  lemma RgbRecognised(c: Rgb, w1: string, w2: string, rest: string)
    requires c.r != [] && c.g != [] && c.b != [] && AllDigits(c.r) && AllDigits(c.g) && AllDigits(c.b)
    requires AllSpace(w1) && AllSpace(w2)
    ensures MatchRgb("rgb(" + (c.r + ([','] + (w1 + (c.g + ([','] + (w2 + (c.b + ([')'] + rest))))))))) == Some(c)
  {
    var u := c.r + ([','] + (w1 + (c.g + ([','] + (w2 + (c.b + ([')'] + rest)))))));
    var v := "rgb(" + u;
    assert v[..4] == "rgb(" && v[4..] == u;
    TripleRecognised(c, w1, w2, [')'] + rest);
  }

  /** The emitted `rgb(r, g, b)` form is a fixed point of the conversion. */
  lemma RgbTextFixed(c: Rgb)
    requires c.r != [] && c.g != [] && c.b != [] && AllDigits(c.r) && AllDigits(c.g) && AllDigits(c.b)
    ensures ConvertColor(RgbText(c)) == Ok(RgbText(c))
  {
    var v := RgbText(c);
    assert v == "rgb(" + (c.r + ([','] + (" " + (c.g + ([','] + (" " + (c.b + ([')'] + []))))))));
    RgbRecognised(c, " ", " ", []);
    assert v[0] == 'r';
  }

  /** Converting a converted colour changes nothing. */
  lemma ConvertColorIdempotent(v: string)
    requires ConvertColor(v).Ok?
    ensures ConvertColor(ConvertColor(v).value) == ConvertColor(v)
  {
    var m := MatchRgb(v);
    if v == [] || v in ["auto", "none", "transparent"] {
    } else if m.Some? {
      RgbTextFixed(m.value);
    } else {
      var ma := MatchRgba(v);
      if ma.Some? && AlphaKind(ma.value.1) == Ok(One) {
        RgbTextFixed(ma.value.0);
      }
    }
  }

  lemma AlphaRunRecognised(a: string, rest: string)
    requires a != [] && AllAlpha(a)
    requires rest == [] || !IsAlphaChar(rest[0])
    ensures AlphaRun(a + rest) == Some((a, rest))
  {
    LeadCountConcat(a, rest, IsAlphaChar);
    assert (a + rest)[..|a|] == a;
    assert (a + rest)[|a|..] == rest;
  }

  /** Any `rgba(r,<spaces>g,<spaces>b,<spaces>a)` prefix is recognised with
      its numbers and its alpha text. */
  lemma RgbaRecognised(c: Rgb, w1: string, w2: string, w3: string, a: string, rest: string)
    requires c.r != [] && c.g != [] && c.b != [] && AllDigits(c.r) && AllDigits(c.g) && AllDigits(c.b)
    requires AllSpace(w1) && AllSpace(w2) && AllSpace(w3) && a != [] && AllAlpha(a)
    ensures MatchRgba("rgba(" + (c.r + ([','] + (w1 + (c.g + ([','] + (w2 + (c.b + ([','] + (w3 + (a + ([')'] + rest)))))))))))) == Some((c, a))
  {
    var tail := [','] + (w3 + (a + ([')'] + rest)));
    var u := c.r + ([','] + (w1 + (c.g + ([','] + (w2 + (c.b + tail))))));
    var v := "rgba(" + u;
    assert v[..5] == "rgba(" && v[5..] == u;
    TripleRecognised(c, w1, w2, tail);
    AlphaTailRecognised(w3, a, rest);
  }

  lemma AlphaTailRecognised(w: string, a: string, rest: string)
    requires AllSpace(w) && a != [] && AllAlpha(a)
    ensures AlphaTail([','] + (w + (a + ([')'] + rest)))) == Some(a)
  {
    assert IsAlphaChar(a[0]);
    SepRecognised(w, a + ([')'] + rest));
    AlphaRunRecognised(a, [')'] + rest);
  }

  lemma Assoc3(x: string, y: string, z: string)
    ensures x + y + z == x + (y + z)
  {
  }

  /** `rgba(r, g, b, a)` written with single spaces. */
  function RgbaText(c: Rgb, a: string): string
  {
    "rgba(" + c.r + ", " + c.g + ", " + c.b + ", " + a + ")"
  }

  lemma RgbaTextShape(c: Rgb, a: string)
    ensures RgbaText(c, a)
            == "rgba(" + (c.r + ([','] + (" " + (c.g + ([','] + (" " + (c.b + ([','] + (" " + (a + ([')'] + [])))))))))))
  {
    var sep := ", ";
    assert sep == [','] + " ";
    var t1 := a + ")";
    var t2 := sep + t1;
    assert t2 == [','] + (" " + (a + ([')'] + [])));
    var t3 := c.b + t2;
    var t4 := sep + t3;
    assert t4 == [','] + (" " + t3);
    var t5 := c.g + t4;
    var t6 := sep + t5;
    assert t6 == [','] + (" " + t5);
    var t7 := c.r + t6;
    calc {
      RgbaText(c, a);
      "rgba(" + c.r + sep + c.g + sep + c.b + sep + a + ")";
      { Assoc3("rgba(" + c.r + sep + c.g + sep + c.b + sep, a, ")"); }
      "rgba(" + c.r + sep + c.g + sep + c.b + sep + t1;
      { Assoc3("rgba(" + c.r + sep + c.g + sep + c.b, sep, t1); }
      "rgba(" + c.r + sep + c.g + sep + c.b + t2;
      { Assoc3("rgba(" + c.r + sep + c.g + sep, c.b, t2); }
      "rgba(" + c.r + sep + c.g + sep + t3;
      { Assoc3("rgba(" + c.r + sep + c.g, sep, t3); }
      "rgba(" + c.r + sep + c.g + t4;
      { Assoc3("rgba(" + c.r + sep, c.g, t4); }
      "rgba(" + c.r + sep + t5;
      { Assoc3("rgba(" + c.r, sep, t5); }
      "rgba(" + c.r + t6;
      { Assoc3("rgba(", c.r, t6); }
      "rgba(" + t7;
    }
  }

  lemma RgbaTextRecognised(c: Rgb, a: string)
    requires c.r != [] && c.g != [] && c.b != [] && AllDigits(c.r) && AllDigits(c.g) && AllDigits(c.b)
    requires a != [] && AllAlpha(a)
    ensures MatchRgba(RgbaText(c, a)) == Some((c, a))
    ensures |RgbaText(c, a)| >= 4 && RgbaText(c, a)[3] == 'a'
  {
    var u := c.r + ([','] + (" " + (c.g + ([','] + (" " + (c.b + ([','] + (" " + (a + ([')'] + []))))))))));
    RgbaTextShape(c, a);
    RgbaRecognised(c, " ", " ", " ", a, []);
    assert ("rgba(" + u)[3] == 'a';
  }

  /** A fully transparent `rgba()` becomes `transparent`. */
  lemma RgbaZeroIsTransparent(c: Rgb)
    requires c.r != [] && c.g != [] && c.b != [] && AllDigits(c.r) && AllDigits(c.g) && AllDigits(c.b)
    ensures ConvertColor(RgbaText(c, "0")) == Ok("transparent")
  {
    var v := RgbaText(c, "0");
    RgbaTextRecognised(c, "0");
    NotRgb(v);
    AlphaZero();
    RgbaRule(v);
  }

  /** An opaque `rgba()` becomes the `rgb()` form of the same colour. */
  lemma RgbaOneIsRgb(c: Rgb)
    requires c.r != [] && c.g != [] && c.b != [] && AllDigits(c.r) && AllDigits(c.g) && AllDigits(c.b)
    ensures ConvertColor(RgbaText(c, "1")) == Ok(RgbText(c))
  {
    var v := RgbaText(c, "1");
    RgbaTextRecognised(c, "1");
    NotRgb(v);
    AlphaOne();
    RgbaRule(v);
  }

  /** A half-transparent `rgba()` is kept as written. */
  lemma RgbaHalfKept(c: Rgb)
    requires c.r != [] && c.g != [] && c.b != [] && AllDigits(c.r) && AllDigits(c.g) && AllDigits(c.b)
    ensures ConvertColor(RgbaText(c, "0.5")) == Ok(RgbaText(c, "0.5"))
  {
    var v := RgbaText(c, "0.5");
    RgbaTextRecognised(c, "0.5");
    NotRgb(v);
    AlphaHalf();
    RgbaRule(v);
  }

  /** An `rgba()` value that is not also an `rgb()` one: alpha 0 gives
      `transparent`, alpha 1 the `rgb()` form, any other alpha the value as
      written. */
  lemma RgbaRule(v: string)
    requires v != [] && v !in ["auto", "none", "transparent"] && MatchRgb(v) == None
    requires MatchRgba(v).Some? && AlphaKind(MatchRgba(v).value.1).Ok?
    ensures AlphaKind(MatchRgba(v).value.1) == Ok(Zero) ==> ConvertColor(v) == Ok("transparent")
    ensures AlphaKind(MatchRgba(v).value.1) == Ok(One) ==> ConvertColor(v) == Ok(RgbText(MatchRgba(v).value.0))
    ensures AlphaKind(MatchRgba(v).value.1) == Ok(Fraction) ==> ConvertColor(v) == Ok(v)
  {
  }

  lemma NotRgb(v: string)
    requires |v| >= 4 && v[3] == 'a'
    ensures MatchRgb(v) == None
    ensures v != [] && v !in ["auto", "none", "transparent"]
  {
    assert v[..4][3] == v[3];
  }

  lemma AlphaZero()
    ensures AlphaKind("0") == Ok(Zero)
  {
    assert CountChar("0", '.') == 0;
    assert LeadCount("0", IsDigit) == 1;
    assert "0"[..1] == "0";
    assert DigitsValue("0") == 0;
  }

  lemma AlphaOne()
    ensures AlphaKind("1") == Ok(One)
  {
    assert CountChar("1", '.') == 0;
    assert LeadCount("1", IsDigit) == 1;
    assert "1"[..1] == "1";
    assert DigitsValue("1") == 1;
  }

  lemma AlphaHalf()
    ensures AlphaKind("0.5") == Ok(Fraction)
  {
    var a := "0.5";
    assert CountChar(a, '.') == 1 by {
      assert a[1..] == ".5" && a[1..][1..] == "5" && a[1..][1..][1..] == [];
    }
    assert LeadCount(a, IsDigit) == 1 by {
      assert a[1..] == ".5";
    }
    assert a[..1] == "0" && a[2..] == "5";
    assert DigitsValue("0") == 0;
    assert DigitsValue("5") == 5;
    assert Pow10(1) == 10;
  }

  // ------------------------------------------------------------------
  // should_include_property and the variable scanner

  /** Values the converter never emits. */
  const SkipValues: seq<string> := ["auto", "none", "normal", "0px", "0", "initial"]

  /** `re.match(pattern, prop)` for each ignore pattern, with the patterns
      read as literal prefixes. */
  predicate Ignored(prop: string, ignoreProps: seq<string>)
  {
    exists p :: p in ignoreProps && StartsWith(prop, p)
  }

  /** `should_include_property`: a non-default value of a mapped,
      non-`webkit`, non-ignored property. */
  function ShouldInclude(prop: string, value: string, ignoreProps: seq<string>): (r: bool)
    ensures r <==> value != [] && value !in SkipValues && !StartsWith(prop, "webkit")
                   && ODict.HasKey(CssToQss, prop) && !Ignored(prop, ignoreProps)
  {
    if value == [] || value in SkipValues then false
    else if StartsWith(prop, "webkit") then false
    else if !ODict.HasKey(CssToQss, prop) then false
    else if Ignored(prop, ignoreProps) then false
    else true
  }

  /** `re.search(r"--\w+-", v)` succeeds at position `i`. */
  predicate VarAt(v: string, i: nat)
    requires i <= |v|
  {
    i + 2 <= |v| && v[i] == '-' && v[i + 1] == '-'
    && var n := LeadCount(v[i + 2..], IsWordChar);
       n >= 1 && i + 2 + n < |v| && v[i + 2 + n] == '-'
  }

  /** `re.search(r"--\w+-", v)`: an unresolved CSS variable reference. */
  predicate HasVarRef(v: string)
  {
    exists i :: 0 <= i <= |v| && VarAt(v, i)
  }

  // ------------------------------------------------------------------
  // clean_font_family

  predicate IsQuote(c: char) { c == '"' || c == '\'' }

  /** `clean_font_family`: a comma list is stripped of whitespace and of one
      pair of matching outer quotes; a single family is stripped of every
      outer quote character and double-quoted when it holds a space. */
  function CleanFontFamily(f: string): (r: string)
    ensures ',' !in f ==> (r != [] && r[0] == '"' <==> ' ' in StripBy(f, IsQuote))
  {
    if ',' in f then
      var c := Strip(f);
      if |c| >= 1 && ((c[0] == '"' && c[|c| - 1] == '"') || (c[0] == '\'' && c[|c| - 1] == '\'')) then
        if |c| >= 2 then c[1..|c| - 1] else []
      else c
    else
      var c := StripBy(f, IsQuote);
      if ' ' in c && !(|c| >= 1 && c[0] == '"' && c[|c| - 1] == '"') then "\"" + c + "\"" else c
  }

  /** Stripping quotes off a quoted string whose ends are not quotes gives
      the string back. */
  lemma StripQuoted(c: string)
    requires c != [] && !IsQuote(c[0]) && !IsQuote(c[|c| - 1])
    ensures StripBy(c, IsQuote) == c
    ensures StripBy("\"" + c + "\"", IsQuote) == c
  {
    assert LeadCount(c, IsQuote) == 0;
    assert TrailCount(c, IsQuote) == 0;
    var q := "\"" + c + "\"";
    assert q[1..] == c + "\"";
    assert LeadCount(q, IsQuote) == 1;
    var t := q[1..];
    assert t[..|t| - 1] == c;
    assert TrailCount(t, IsQuote) == 1;
    assert q[1..|q| - 1] == c;
  }

  /** Cleaning a single family twice is cleaning it once. */
  lemma CleanFontFamilyIdempotent(f: string)
    requires ',' !in f
    ensures CleanFontFamily(CleanFontFamily(f)) == CleanFontFamily(f)
  {
    var c := StripBy(f, IsQuote);
    StripByWithin(f, IsQuote);
    if c != [] {
      StripQuoted(c);
      assert !IsQuote(c[0]);
      if ' ' in c {
        QuotedFamilyFixed(c);
      } else {
        assert CleanFontFamily(f) == c;
      }
    }
  }

  /** A spaced family, once double-quoted, is left as it is. */
  lemma QuotedFamilyFixed(c: string)
    requires c != [] && !IsQuote(c[0]) && !IsQuote(c[|c| - 1]) && ',' !in c && ' ' in c
    ensures CleanFontFamily("\"" + c + "\"") == "\"" + c + "\""
  {
    var q := "\"" + c + "\"";
    assert forall i :: 0 <= i < |q| ==> q[i] == '"' || q[i] in c;
    assert ',' !in q;
    StripQuoted(c);
    assert StripBy(q, IsQuote) == c;
  }

  /** A family list wrapped in one pair of double quotes loses exactly that
      pair, whatever the list holds. */
  lemma QuotedListUnwrapped(c: string)
    requires ',' in c
    ensures CleanFontFamily("\"" + c + "\"") == c
  {
    var q := "\"" + c + "\"";
    assert ',' in q by {
      var i :| 0 <= i < |c| && c[i] == ',';
      assert q[i + 1] == ',';
    }
    assert LeadCount(q, IsSpace) == 0;
    assert q[0..] == q;
    assert TrailCount(q, IsSpace) == 0;
    assert Strip(q) == q;
    assert q[1..|q| - 1] == c;
  }

  // ------------------------------------------------------------------
  // _optimize_properties

  const PaddingSides: seq<string> := ["padding-top", "padding-right", "padding-bottom", "padding-left"]
  const MarginSides: seq<string> := ["margin-top", "margin-right", "margin-bottom", "margin-left"]
  const BorderSides: seq<string> :=
    ["-top", "-right", "-bottom", "-left", "-top-left", "-top-right", "-bottom-left", "-bottom-right"]
  const BorderParts: seq<string> := ["", "-width", "-color", "-style", "-radius"]

  function SetOf(s: seq<string>): (r: set<string>)
    ensures forall x :: x in r <==> x in s
  {
    set x | x in s
  }

  /** `border{side}{part}` for every side, in order. */
  function BorderLonghands(part: string): (r: seq<string>)
    ensures |r| == |BorderSides|
    ensures forall j :: 0 <= j < |r| ==> r[j] == "border" + BorderSides[j] + part
  {
    seq(|BorderSides|, j requires 0 <= j < |BorderSides| => "border" + BorderSides[j] + part)
  }

  /** The border longhands popped for the first `n` parts. */
  function BorderDropped(p: Props, n: nat): set<string>
    requires n <= |BorderParts|
  {
    if n == 0 then {}
    else
      BorderDropped(p, n - 1)
      + (if ODict.HasKey(p, "border" + BorderParts[n - 1]) then SetOf(BorderLonghands(BorderParts[n - 1])) else {})
  }

  /** A `text-decoration` value that is only a colour. */
  predicate ColourLike(v: string)
  {
    StartsWith(v, "rgb(") || StartsWith(v, "#") || v == "transparent"
  }

  predicate OutlineRedundant(p: Props)
  {
    ODict.HasKey(p, "outline-color") && ODict.HasKey(p, "outline-style") && ODict.HasKey(p, "outline")
    && Contains(ODict.Get(p, "outline").value, "none")
  }

  /** The longhands whose shorthand is present in `p`. */
  function LonghandKeys(p: Props): set<string>
  {
    (if ODict.HasKey(p, "padding") then SetOf(PaddingSides) else {})
    + (if ODict.HasKey(p, "margin") then SetOf(MarginSides) else {})
    + BorderDropped(p, |BorderParts|)
  }

  function DecorationKey(p: Props): set<string>
  {
    if ODict.HasKey(p, "text-decoration") && ColourLike(ODict.Get(p, "text-decoration").value)
    then {"text-decoration"} else {}
  }

  function OutlineKey(p: Props): set<string>
  {
    if OutlineRedundant(p) then {"outline"} else {}
  }

  function OpacityKey(p: Props): set<string>
  {
    if ODict.Get(p, "opacity") == Some("1") then {"opacity"} else {}
  }

  /** A colour-only `text-decoration`, a redundant `outline`, an opacity of
      `"1"`. */
  function DefaultKeys(p: Props): set<string>
  {
    DecorationKey(p) + OutlineKey(p) + OpacityKey(p)
  }

  /** Every key `_optimize_properties` pops from `p`. Each condition reads
      `p` itself: no pop changes a later condition. */
  function DroppedKeys(p: Props): set<string>
  {
    LonghandKeys(p) + DefaultKeys(p)
  }

  /** `_optimize_properties`: the properties with the redundant ones popped. */
  function Optimize(p: Props): (r: Props)
  {
    ODict.Without(p, DroppedKeys(p))
  }

  /** Optimising only deletes: every remaining entry is an entry of the input
      with its value, and a key keeps its value unless it is dropped. */
  lemma OptimizeGet(p: Props, k: string)
    requires ODict.Valid(p)
    ensures forall i :: 0 <= i < |Optimize(p)| ==> Optimize(p)[i] in p
    ensures ODict.Get(Optimize(p), k) == if k in DroppedKeys(p) then None else ODict.Get(p, k)
  {
    ODict.WithoutGet(p, DroppedKeys(p), k);
    ODict.WithoutEntries(p, DroppedKeys(p));
  }

  lemma {:induction false} BorderDroppedAt(p: Props, n: nat, i: nat, k: string)
    requires i < n <= |BorderParts|
    requires ODict.HasKey(p, "border" + BorderParts[i]) && k in BorderLonghands(BorderParts[i])
    ensures k in BorderDropped(p, n)
  {
    if i < n - 1 {
      BorderDroppedAt(p, n - 1, i, k);
    }
  }

  /** A shorthand removes its longhands: `padding` and `margin` their four
      sides, `border<part>` the eight `border<side><part>`. */
  lemma ShorthandRemovesLonghands(p: Props, i: nat, side: nat)
    requires ODict.Valid(p) && i < |BorderParts| && side < |BorderSides|
    ensures ODict.HasKey(p, "padding") && side < 4 ==> !ODict.HasKey(Optimize(p), PaddingSides[side])
    ensures ODict.HasKey(p, "margin") && side < 4 ==> !ODict.HasKey(Optimize(p), MarginSides[side])
    ensures ODict.HasKey(p, "border" + BorderParts[i])
            ==> !ODict.HasKey(Optimize(p), "border" + BorderSides[side] + BorderParts[i])
  {
    var k := "border" + BorderSides[side] + BorderParts[i];
    if ODict.HasKey(p, "border" + BorderParts[i]) {
      assert k == BorderLonghands(BorderParts[i])[side];
      BorderDroppedAt(p, |BorderParts|, i, k);
    }
    ODict.WithoutHasKey(p, DroppedKeys(p), k);
    if side < 4 {
      ODict.WithoutHasKey(p, DroppedKeys(p), PaddingSides[side]);
      ODict.WithoutHasKey(p, DroppedKeys(p), MarginSides[side]);
    }
  }

  /** A colour-only `text-decoration`, a redundant `outline` and an opacity
      of `"1"` are removed. */
  lemma DefaultsRemoved(p: Props)
    requires ODict.Valid(p)
    ensures ODict.HasKey(p, "text-decoration") && ColourLike(ODict.Get(p, "text-decoration").value)
            ==> !ODict.HasKey(Optimize(p), "text-decoration")
    ensures OutlineRedundant(p) ==> !ODict.HasKey(Optimize(p), "outline")
    ensures ODict.Get(p, "opacity") == Some("1") ==> !ODict.HasKey(Optimize(p), "opacity")
  {
    ODict.WithoutHasKey(p, DroppedKeys(p), "text-decoration");
    ODict.WithoutHasKey(p, DroppedKeys(p), "outline");
    ODict.WithoutHasKey(p, DroppedKeys(p), "opacity");
  }

  lemma {:induction false} BorderDroppedMono(q: Props, p: Props, n: nat)
    requires n <= |BorderParts|
    requires forall i :: 0 <= i < |BorderParts| && ODict.HasKey(q, "border" + BorderParts[i])
                         ==> ODict.HasKey(p, "border" + BorderParts[i])
    ensures BorderDropped(q, n) <= BorderDropped(p, n)
  {
    if n > 0 {
      BorderDroppedMono(q, p, n - 1);
    }
  }

  /** Popping keys never makes more keys redundant. */
  lemma DroppedMono(p: Props, x: set<string>)
    requires ODict.Valid(p)
    ensures DroppedKeys(ODict.Without(p, x)) <= DroppedKeys(p)
  {
    var q := ODict.Without(p, x);
    forall k | k in ["padding", "margin", "text-decoration", "outline-color", "outline-style", "outline", "opacity"]
      ensures ODict.HasKey(q, k) ==> ODict.HasKey(p, k)
      ensures ODict.HasKey(q, k) ==> ODict.Get(q, k) == ODict.Get(p, k)
    {
      ODict.WithoutHasKey(p, x, k);
      ODict.WithoutGet(p, x, k);
    }
    forall i | 0 <= i < |BorderParts| && ODict.HasKey(q, "border" + BorderParts[i])
      ensures ODict.HasKey(p, "border" + BorderParts[i])
    {
      ODict.WithoutHasKey(p, x, "border" + BorderParts[i]);
    }
    BorderDroppedMono(q, p, |BorderParts|);
    ODict.WithoutGet(p, x, "opacity");
  }

  /** Optimising twice is optimising once. */
  lemma OptimizeIdempotent(p: Props)
    requires ODict.Valid(p)
    ensures Optimize(Optimize(p)) == Optimize(p)
  {
    var d := DroppedKeys(p);
    var q := ODict.Without(p, d);
    DroppedMono(p, d);
    ODict.WithoutWithout(p, d, DroppedKeys(q));
    assert d + DroppedKeys(q) == d;
  }

  /** `optimized.pop(k, None)` for each key in turn. */
  method PopAll(d: Props, keys: seq<string>) returns (r: Props)
    ensures r == ODict.Without(d, SetOf(keys))
  {
    r := d;
    ODict.WithoutNone(d, {});
    assert SetOf(keys[..0]) == {};
    for j := 0 to |keys|
      invariant r == ODict.Without(d, SetOf(keys[..j]))
    {
      ODict.RemoveIsWithout(r, keys[j]);
      ODict.WithoutWithout(d, SetOf(keys[..j]), {keys[j]});
      assert SetOf(keys[..j]) + {keys[j]} == SetOf(keys[..j + 1]) by {
        assert keys[..j + 1] == keys[..j] + [keys[j]];
      }
      r := ODict.Remove(r, keys[j]);
    }
    assert keys[..|keys|] == keys;
  }

  lemma PartNotSidePart(i: nat, j: nat, k: nat)
    requires i < |BorderParts| && j < |BorderSides| && k < |BorderParts|
    ensures BorderParts[i] != BorderSides[j] + BorderParts[k]
  {
    if BorderParts[k] == [] {
      assert BorderSides[j] + BorderParts[k] == BorderSides[j];
    } else {
      assert |BorderParts[i]| <= 7 && |BorderSides[j]| >= 4 && |BorderParts[k]| >= 6;
    }
  }

  lemma {:induction false} BorderDroppedShape(p: Props, n: nat, x: string)
    requires n <= |BorderParts| && x in BorderDropped(p, n)
    ensures exists k, j :: 0 <= k < n && 0 <= j < |BorderSides| && x == "border" + BorderSides[j] + BorderParts[k]
  {
    if x !in BorderDropped(p, n - 1) {
      var j :| 0 <= j < |BorderSides| && BorderLonghands(BorderParts[n - 1])[j] == x;
      assert x == "border" + BorderSides[j] + BorderParts[n - 1];
    } else {
      BorderDroppedShape(p, n - 1, x);
    }
  }

  /** The border shorthands are never among the popped longhands. */
  lemma ShorthandNotDropped(p: Props, n: nat, i: nat)
    requires n <= |BorderParts| && i < |BorderParts|
    ensures "border" + BorderParts[i] !in BorderDropped(p, n)
  {
    var x := "border" + BorderParts[i];
    if x in BorderDropped(p, n) {
      BorderDroppedShape(p, n, x);
      var k, j :| 0 <= k < n && 0 <= j < |BorderSides| && x == "border" + BorderSides[j] + BorderParts[k];
      PrefixCancel("border", BorderParts[i], BorderSides[j] + BorderParts[k]);
      PartNotSidePart(i, j, k);
    }
  }

  lemma PrefixCancel(a: string, b: string, c: string)
    requires a + b == a + c
    ensures b == c
  {
    assert b == (a + b)[|a|..];
    assert c == (a + c)[|a|..];
  }

  /** A key that does not start with `b` is never a popped border longhand. */
  lemma OtherNotDropped(p: Props, n: nat, x: string)
    requires n <= |BorderParts| && x != [] && x[0] != 'b'
    ensures x !in BorderDropped(p, n)
  {
    if x in BorderDropped(p, n) {
      BorderDroppedShape(p, n, x);
    }
  }

  lemma ShorthandNotSide(i: nat)
    requires i < |BorderParts|
    ensures "border" + BorderParts[i] !in SetOf(PaddingSides) + SetOf(MarginSides)
  {
    var y := "border" + BorderParts[i];
    assert y[0] == 'b';
  }

  /** A key starting with none of `b`, `m`, `p` is never a popped longhand. */
  lemma NotLonghand(p: Props, x: string)
    requires x != [] && x[0] != 'b' && x[0] != 'm' && x[0] != 'p'
    ensures x !in LonghandKeys(p)
  {
    OtherNotDropped(p, |BorderParts|, x);
    assert forall y :: y in PaddingSides || y in MarginSides ==> y[0] == 'p' || y[0] == 'm';
  }

  /** The shorthand part of `_optimize_properties`: padding, margin and
      border longhands are popped when their shorthand is present in the
      partly optimised dictionary. */
  method PopLonghands(p: Props) returns (optimized: Props)
    requires ODict.Valid(p)
    ensures optimized == ODict.Without(p, LonghandKeys(p))
  {
    optimized := p;
    ghost var popped: set<string> := {};
    ODict.WithoutNone(p, {});
    if ODict.HasKey(optimized, "padding") {
      optimized := PopAll(optimized, PaddingSides);
      popped := SetOf(PaddingSides);
    }
    assert "margin" !in popped;
    ODict.WithoutHasKey(p, popped, "margin");
    assert ODict.HasKey(optimized, "margin") == ODict.HasKey(p, "margin");
    if ODict.HasKey(optimized, "margin") {
      ODict.WithoutWithout(p, popped, SetOf(MarginSides));
      optimized := PopAll(optimized, MarginSides);
      popped := popped + SetOf(MarginSides);
    }
    forall i | 0 <= i < |BorderParts|
      ensures "border" + BorderParts[i] !in popped
    {
      ShorthandNotSide(i);
    }
    assert popped == (if ODict.HasKey(p, "padding") then SetOf(PaddingSides) else {})
                     + (if ODict.HasKey(p, "margin") then SetOf(MarginSides) else {});
    optimized := PopBorders(p, optimized, popped);
  }

  /** `for p in parts: if f"border{p}" in optimized: pop its sides`. */
  method PopBorders(p: Props, d: Props, ghost sides: set<string>) returns (optimized: Props)
    requires ODict.Valid(p) && d == ODict.Without(p, sides)
    requires forall i :: 0 <= i < |BorderParts| ==> "border" + BorderParts[i] !in sides
    ensures optimized == ODict.Without(p, sides + BorderDropped(p, |BorderParts|))
  {
    optimized := d;
    ghost var popped := sides;
    for i := 0 to |BorderParts|
      invariant popped == sides + BorderDropped(p, i)
      invariant optimized == ODict.Without(p, popped)
    {
      var shorthand := "border" + BorderParts[i];
      var longhands := BorderLonghands(BorderParts[i]);
      ShorthandNotDropped(p, i, i);
      ODict.WithoutHasKey(p, popped, shorthand);
      if ODict.HasKey(optimized, shorthand) {
        ODict.WithoutWithout(p, popped, SetOf(longhands));
        optimized := PopAll(optimized, longhands);
        popped := popped + SetOf(longhands);
      }
    }
  }

  /** `_optimize_properties`, popping as it goes: each test reads the
      partly optimised dictionary, which agrees with the input on every key
      it tests. */
  method OptimizeProperties(properties: Props) returns (optimized: Props)
    requires ODict.Valid(properties)
    ensures optimized == Optimize(properties)
  {
    var p := properties;
    optimized := PopLonghands(p);
    ghost var popped := LonghandKeys(p);
    NotLonghand(p, "text-decoration");
    NotLonghand(p, "outline-color");
    NotLonghand(p, "outline-style");
    NotLonghand(p, "outline");
    NotLonghand(p, "opacity");
    optimized := PopDefaults(p, optimized, popped);
  }

  /** The last three steps of `_optimize_properties`. */
  method PopDefaults(p: Props, d: Props, ghost popped: set<string>) returns (optimized: Props)
    requires ODict.Valid(p) && d == ODict.Without(p, popped)
    requires "text-decoration" !in popped && "outline-color" !in popped && "outline-style" !in popped
    requires "outline" !in popped && "opacity" !in popped
    ensures optimized == ODict.Without(p, popped + DefaultKeys(p))
  {
    optimized := PopDecoration(p, d, popped);
    optimized := PopOutline(p, optimized, popped + DecorationKey(p));
    optimized := PopOpacity(p, optimized, popped + DecorationKey(p) + OutlineKey(p));
    assert popped + DecorationKey(p) + OutlineKey(p) + OpacityKey(p) == popped + DefaultKeys(p);
  }

  /** Drops a `text-decoration` that is only a colour. */
  method PopDecoration(p: Props, d: Props, ghost popped: set<string>) returns (optimized: Props)
    requires ODict.Valid(p) && d == ODict.Without(p, popped) && "text-decoration" !in popped
    ensures optimized == ODict.Without(p, popped + DecorationKey(p))
  {
    optimized := d;
    ODict.WithoutGet(p, popped, "text-decoration");
    if ODict.HasKey(optimized, "text-decoration") {
      var value := ODict.Get(optimized, "text-decoration").value;
      if ColourLike(value) {
        ODict.PopOne(p, popped, "text-decoration");
        optimized := ODict.Remove(optimized, "text-decoration");
        return;
      }
    }
    assert popped + DecorationKey(p) == popped;
  }

  /** Drops an `outline` of `none` next to an outline colour and style. */
  method PopOutline(p: Props, d: Props, ghost popped: set<string>) returns (optimized: Props)
    requires ODict.Valid(p) && d == ODict.Without(p, popped)
    requires "outline-color" !in popped && "outline-style" !in popped && "outline" !in popped
    ensures optimized == ODict.Without(p, popped + OutlineKey(p))
  {
    optimized := d;
    ODict.WithoutGet(p, popped, "outline");
    ODict.WithoutHasKey(p, popped, "outline-color");
    ODict.WithoutHasKey(p, popped, "outline-style");
    ODict.WithoutHasKey(p, popped, "outline");
    if ODict.HasKey(optimized, "outline-color") && ODict.HasKey(optimized, "outline-style")
       && ODict.HasKey(optimized, "outline") {
      var outlineValue := ODict.Get(optimized, "outline").value;
      if Contains(outlineValue, "none") {
        ODict.PopOne(p, popped, "outline");
        optimized := ODict.Remove(optimized, "outline");
        return;
      }
    }
    assert popped + OutlineKey(p) == popped;
  }

  /** Drops an opacity of `"1"`. */
  method PopOpacity(p: Props, d: Props, ghost popped: set<string>) returns (optimized: Props)
    requires ODict.Valid(p) && d == ODict.Without(p, popped) && "opacity" !in popped
    ensures optimized == ODict.Without(p, popped + OpacityKey(p))
  {
    optimized := d;
    ODict.WithoutGet(p, popped, "opacity");
    if ODict.Get(optimized, "opacity") == Some("1") {
      ODict.PopOne(p, popped, "opacity");
      optimized := ODict.Remove(optimized, "opacity");
      return;
    }
    assert popped + OpacityKey(p) == popped;
  }

  // ------------------------------------------------------------------
  // Selectors

  /** The `[name="value"]` parts for the pairs with a non-empty name and
      value, in order. */
  function AttrSelectors(parts: seq<(string, string)>): string
  {
    if parts == [] then []
    else
      var p := parts[0];
      (if p.0 != [] && p.1 != [] then "[" + p.0 + "=\"" + p.1 + "\"]" else [])
      + AttrSelectors(parts[1..])
  }

  lemma {:induction false} AttrSelectorsConcat(a: seq<(string, string)>, b: seq<(string, string)>)
    ensures AttrSelectors(a + b) == AttrSelectors(a) + AttrSelectors(b)
    decreases |a|
  {
    if a == [] {
      assert a + b == b;
    } else {
      assert (a + b)[1..] == a[1..] + b;
      AttrSelectorsConcat(a[1..], b);
    }
  }

  /** `generate_compound_qss_selector`: the widget class, its attribute
      selectors, then the pseudo-state when one is given. */
  function CompoundSelector(widgetClass: string, parts: seq<(string, string)>, pseudo: string): (r: string)
    ensures StartsWith(r, widgetClass)
    ensures pseudo != [] ==> EndsWith(r, pseudo)
  {
    var base := widgetClass + AttrSelectors(parts);
    var r := if pseudo != [] then base + pseudo else base;
    assert r[..|widgetClass|] == widgetClass;
    assert pseudo != [] ==> r[|r| - |pseudo|..] == pseudo;
    r
  }

  /** A nested selector extends its parent's selector: appending a part
      appends its attribute selector. */
  lemma NestedSelectorExtends(widgetClass: string, parts: seq<(string, string)>, name: string, value: string)
    requires name != [] && value != []
    ensures CompoundSelector(widgetClass, parts + [(name, value)], "")
            == CompoundSelector(widgetClass, parts, "") + "[" + name + "=\"" + value + "\"]"
  {
    AttrSelectorsConcat(parts, [(name, value)]);
    assert AttrSelectors([(name, value)]) == "[" + name + "=\"" + value + "\"]" + AttrSelectors([]);
  }

  /** A pair with an empty name or an empty value adds nothing to the
      selector. */
  lemma EmptyPartSkipped(widgetClass: string, parts: seq<(string, string)>, name: string, value: string, pseudo: string)
    requires name == [] || value == []
    ensures CompoundSelector(widgetClass, parts + [(name, value)], pseudo) == CompoundSelector(widgetClass, parts, pseudo)
  {
    AttrSelectorsConcat(parts, [(name, value)]);
    assert AttrSelectors([(name, value)]) == AttrSelectors([]);
    assert AttrSelectors(parts) + [] == AttrSelectors(parts);
  }
}
