/** The theme store behind the widget style: palette alias resolution at
    load time, variant selection, and `get_style`, which merges the global
    properties with the default and chosen variants and flattens the state
    sub-dictionaries, substituting palette names, behind a memo cache. */
module StyleData {
  import opened Wrappers
  import ODict
  import Text

  /** A theme value as decoded from JSON. */
  datatype Value = Str(s: string) | Num(n: int) | List(items: seq<Value>) | Dict(entries: seq<(string, Value)>)
  {
    predicate IsScalar() { Str? || Num? }
  }

  type Props = seq<(string, Value)>
  type Palette = seq<(string, string)>

  /** One entry of the theme's `"widgets"` table. */
  datatype Widget = Widget(defaultVariant: Option<string>, variants: Option<seq<(string, Props)>>)

  /** The top-level theme keys the style reads; `None` is a missing key. */
  datatype Theme = Theme(global: Option<Props>, palette: Option<Palette>, widgets: Option<seq<(string, Widget)>>)

  /** The Python exceptions the code lets escape. */
  datatype StyleError = KeyError(key: string) | IndexError | ValueError(key: string) | TypeError | RuntimeError

  function PaletteOf(t: Theme): Palette
  {
    t.palette.GetOr([])
  }

  /** A dictionary whose dict values are dictionaries too (JSON objects never
      repeat a key). */
  ghost predicate PropsValid(p: Props)
  {
    ODict.Valid(p) && forall i :: 0 <= i < |p| && p[i].1.Dict? ==> ODict.Valid(p[i].1.entries)
  }

  ghost predicate WellFormed(t: Theme)
  {
    ODict.Valid(PaletteOf(t))
    && (t.global.Some? ==> PropsValid(t.global.value))
    && (t.widgets.Some? ==> forall i :: 0 <= i < |t.widgets.value| ==> WidgetValid(t.widgets.value[i].1))
  }

  ghost predicate WidgetValid(w: Widget)
  {
    w.variants.Some? ==>
      ODict.Valid(w.variants.value)
      && forall i :: 0 <= i < |w.variants.value| ==> PropsValid(w.variants.value[i].1)
  }

  // ------------------------------------------------------------------
  // Palette loading

  /** One entry, its value converted when written as `hsl(...)`. */
  function HslEntry(e: (string, string), hsl: string -> string): (string, string)
  {
    (e.0, if Text.StartsWith(e.1, "hsl(") then hsl(e.1) else e.1)
  }

  /** Values written as `hsl(...)` are converted by `hsl`. */
  function HslConverted(p: Palette, hsl: string -> string): (r: Palette)
    ensures |r| == |p|
    ensures forall i :: 0 <= i < |p| ==> r[i] == HslEntry(p[i], hsl)
  {
    if p == [] then [] else [HslEntry(p[0], hsl)] + HslConverted(p[1..], hsl)
  }

  /** The new value of entry `i`: the palette entry its value names, if any. */
  function AliasStep(p: Palette, i: nat): string
    requires i < |p|
  {
    ODict.Get(p, p[i].1).GetOr(p[i].1)
  }

  /** The in-place pass over entries `i..`, in insertion order. */
  function ResolveFrom(p: Palette, i: nat): Palette
    decreases |p| - i
  {
    if i >= |p| then p else ResolveFrom(p[i := (p[i].0, AliasStep(p, i))], i + 1)
  }

  function ResolveAliases(p: Palette): Palette
  {
    ResolveFrom(p, 0)
  }

  /** Entries from `i` on were each rewritten against the palette as it stood
      when the pass reached them. */
  ghost predicate StepsFrom(r: Palette, q: Palette, i: nat)
    requires |r| == |q|
  {
    forall m {:trigger r[m]} :: i <= m < |q| ==> r[m].1 == ODict.Get(r[..m] + q[m..], q[m].1).GetOr(q[m].1)
  }

  lemma {:induction false} ResolveFromSpec(q: Palette, i: nat)
    requires i <= |q|
    ensures |ResolveFrom(q, i)| == |q|
    ensures forall m :: 0 <= m < |q| ==> ResolveFrom(q, i)[m].0 == q[m].0
    ensures ResolveFrom(q, i)[..i] == q[..i]
    ensures StepsFrom(ResolveFrom(q, i), q, i)
    decreases |q| - i
  {
    if i < |q| {
      var q' := q[i := (q[i].0, AliasStep(q, i))];
      ResolveFromSpec(q', i + 1);
      var r := ResolveFrom(q', i + 1);
      assert ResolveFrom(q, i) == r;
      PrefixAfterUpdate(r, q, q', i);
      StepsAfterUpdate(r, q, q', i);
    }
  }

  /** Updating entry `i` leaves the entries before it as they were. */
  lemma PrefixAfterUpdate(r: Palette, q: Palette, q': Palette, i: nat)
    requires i < |q| && q' == q[i := (q[i].0, AliasStep(q, i))]
    requires |r| == |q| && r[..i + 1] == q'[..i + 1]
    ensures r[..i] == q[..i] && r[i] == q'[i]
  {
    assert r[..i] == r[..i + 1][..i];
    assert q'[..i] == q[..i];
  }

  /** One step of the pass: entry `i` took its new value from the palette as
      it stood, and the later entries were rewritten against `q'`, which
      agrees with `q` after position `i`. */
  lemma StepsAfterUpdate(r: Palette, q: Palette, q': Palette, i: nat)
    requires i < |q| && q' == q[i := (q[i].0, AliasStep(q, i))]
    requires |r| == |q| && r[..i] == q[..i] && r[i] == q'[i]
    requires StepsFrom(r, q', i + 1)
    ensures StepsFrom(r, q, i)
  {
    assert r[..i] + q[i..] == q;
    forall m | i < m < |q|
      ensures r[m].1 == ODict.Get(r[..m] + q[m..], q[m].1).GetOr(q[m].1)
    {
      assert q'[m..] == q[m..];
      assert q'[m] == q[m];
    }
  }

  /** Palette load rewrites each value, once and in insertion order, to the
      entry it names in the palette as rewritten so far: earlier entries
      already carry their new value, later ones their old one. Keys and their
      order do not change. */
  lemma PaletteResolvedInOrder(p: Palette, m: nat)
    requires m < |p|
    ensures |ResolveAliases(p)| == |p| && ResolveAliases(p)[m].0 == p[m].0
    ensures ResolveAliases(p)[m].1
            == ODict.Get(ResolveAliases(p)[..m] + p[m..], p[m].1).GetOr(p[m].1)
  {
    ResolveFromSpec(p, 0);
    assert ResolveAliases(p)[m] == ResolveFrom(p, 0)[m];
  }

  /** No value names a palette key. */
  ghost predicate Resolved(p: Palette)
  {
    forall i :: 0 <= i < |p| ==> !ODict.HasKey(p, p[i].1)
  }

  /** The key of the first entry whose value still names a palette key. */
  function FirstUnresolved(p: Palette): (r: Option<string>)
    ensures r.None? <==> Resolved(p)
    ensures r.Some? ==> exists i :: 0 <= i < |p| && p[i].0 == r.value && ODict.HasKey(p, p[i].1)
  {
    FirstUnresolvedFrom(p, 0)
  }

  function FirstUnresolvedFrom(p: Palette, i: nat): (r: Option<string>)
    requires i <= |p|
    ensures r.None? <==> forall j :: i <= j < |p| ==> !ODict.HasKey(p, p[j].1)
    ensures r.Some? ==> exists j :: i <= j < |p| && p[j].0 == r.value && ODict.HasKey(p, p[j].1)
    decreases |p| - i
  {
    if i == |p| then None
    else if ODict.HasKey(p, p[i].1) then Some(p[i].0)
    else FirstUnresolvedFrom(p, i + 1)
  }

  /** The whole palette load: hsl conversion, one alias pass, then the check
      that raises `ValueError` naming the first unresolved entry. */
  function LoadPalette(p: Palette, hsl: string -> string): Result<Palette, StyleError>
  {
    var r := ResolveAliases(HslConverted(p, hsl));
    match FirstUnresolved(r)
    case None => Ok(r)
    case Some(k) => Err(ValueError(k))
  }

  /** A loaded palette never maps a value to another key. */
  lemma LoadedPaletteResolved(p: Palette, hsl: string -> string)
    ensures LoadPalette(p, hsl).Ok? ==> Resolved(LoadPalette(p, hsl).value)
    ensures LoadPalette(p, hsl).Err? ==> LoadPalette(p, hsl).error.ValueError?
  {
  }

  /** An alias to an entry that comes earlier, and is final, resolves. */
  lemma AliasBackward()
    ensures LoadPalette([("base", "#111111"), ("text", "base")], s => s)
            == Ok([("base", "#111111"), ("text", "#111111")])
  {
    var p1: Palette := [("base", "#111111"), ("text", "base")];
    assert HslConverted(p1, s => s) == p1;
    assert ODict.Get(p1, "#111111") == None;
    assert p1[0 := (p1[0].0, AliasStep(p1, 0))] == p1;
    assert ResolveFrom(p1, 0) == ResolveFrom(p1, 1);
    var q1: Palette := [("base", "#111111"), ("text", "#111111")];
    assert AliasStep(p1, 1) == "#111111";
    assert ResolveFrom(p1, 1) == ResolveFrom(q1, 2);
    assert !ODict.HasKey(q1, "#111111");
    assert FirstUnresolved(q1) == None;
  }

  /** An alias chain pointing forward is followed one step only, and the
      load is rejected naming the first entry left unresolved. */
  lemma AliasForward()
    ensures LoadPalette([("a", "b"), ("b", "c"), ("c", "#ffffff")], s => s)
            == Err(ValueError("a"))
  {
    var p2: Palette := [("a", "b"), ("b", "c"), ("c", "#ffffff")];
    assert HslConverted(p2, s => s) == p2;
    ForwardSteps();
    var s2: Palette := [("a", "c"), ("b", "#ffffff"), ("c", "#ffffff")];
    assert ODict.Get(s2, "c") == Some("#ffffff");
    assert ODict.HasKey(s2, s2[0].1);
    assert FirstUnresolved(s2) == Some("a");
  }

  lemma ForwardSteps()
    ensures ResolveAliases([("a", "b"), ("b", "c"), ("c", "#ffffff")])
            == [("a", "c"), ("b", "#ffffff"), ("c", "#ffffff")]
  {
    var p2: Palette := [("a", "b"), ("b", "c"), ("c", "#ffffff")];
    var s1: Palette := [("a", "c"), ("b", "c"), ("c", "#ffffff")];
    var s2: Palette := [("a", "c"), ("b", "#ffffff"), ("c", "#ffffff")];
    assert ODict.Get(p2, "b") == Some("c");
    assert AliasStep(p2, 0) == "c";
    assert p2[0 := (p2[0].0, AliasStep(p2, 0))] == s1;
    assert ResolveFrom(p2, 0) == ResolveFrom(s1, 1);
    assert ODict.Get(s1, "c") == Some("#ffffff");
    assert AliasStep(s1, 1) == "#ffffff";
    assert s1[1 := (s1[1].0, AliasStep(s1, 1))] == s2;
    assert ResolveFrom(s1, 1) == ResolveFrom(s2, 2);
    assert ODict.Get(s2, "#ffffff") == None;
    assert AliasStep(s2, 2) == "#ffffff";
    assert s2[2 := (s2[2].0, AliasStep(s2, 2))] == s2;
    assert ResolveFrom(s2, 2) == ResolveFrom(s2, 3);
  }

  // ------------------------------------------------------------------
  // Variants

  function VariantKeys(w: Widget): seq<string>
  {
    match w.variants
    case None => []
    case Some(vs) => ODict.Keys(vs)
  }

  /** `default_variant`: the `"default-variant"` entry, else the first variant;
      the fallback is evaluated eagerly, so a widget without variants raises
      `IndexError` whether or not it names a default. */
  function DefaultVariant(w: Widget): (r: Result<string, StyleError>)
    ensures r.Err? <==> VariantKeys(w) == []
    ensures r.Ok? && w.defaultVariant.None? ==> r.value == VariantKeys(w)[0]
    ensures r.Ok? && w.defaultVariant.Some? ==> r.value == w.defaultVariant.value
  {
    var keys := VariantKeys(w);
    if keys == [] then Err(IndexError)
    else Ok(w.defaultVariant.GetOr(keys[0]))
  }

  /** `validate_variant`. */
  function ValidateVariant(w: Widget, variant: Option<string>): (r: Result<string, StyleError>)
  {
    if variant.Some? && variant.value in VariantKeys(w) then Ok(variant.value)
    else DefaultVariant(w)
  }

  /** The requested variant is kept exactly when it is a variant key;
      anything else, `None` included, falls back to the default. */
  lemma ValidateVariantRule(w: Widget, variant: Option<string>)
    ensures variant.Some? && variant.value in VariantKeys(w) ==> ValidateVariant(w, variant) == Ok(variant.value)
    ensures (variant.None? || variant.value !in VariantKeys(w)) ==> ValidateVariant(w, variant) == DefaultVariant(w)
    ensures ValidateVariant(w, variant).Ok? ==>
              ValidateVariant(w, variant).value in VariantKeys(w)
              || w.defaultVariant == Some(ValidateVariant(w, variant).value)
  {
  }

  /** `widget_variants`: `data["widgets"][w]["variants"].keys()`. */
  function WidgetVariants(t: Theme, widget: string): (r: Result<seq<string>, StyleError>)
    ensures r.Ok? ==> t.widgets.Some? && ODict.Get(t.widgets.value, widget).Some?
    ensures t.widgets.None? ==> r == Err(KeyError("widgets"))
  {
    match t.widgets
    case None => Err(KeyError("widgets"))
    case Some(ws) =>
      match ODict.Get(ws, widget)
      case None => Err(KeyError(widget))
      case Some(w) => if w.variants.None? then Err(KeyError("variants")) else Ok(VariantKeys(w))
  }

  /** `widget_data`: a widget missing from the table reads as `{}`. */
  function WidgetData(t: Theme, widget: string): (r: Result<Widget, StyleError>)
    ensures r.Err? <==> t.widgets.None?
  {
    match t.widgets
    case None => Err(KeyError("widgets"))
    case Some(ws) => Ok(ODict.Get(ws, widget).GetOr(Widget(None, None)))
  }

  function VariantProps(w: Widget, name: string): Props
  {
    match w.variants
    case None => []
    case Some(vs) => ODict.Get(vs, name).GetOr([])
  }

  /** The merge in `get_style`: global, then the default variant, then the
      validated variant, each `update` overriding the previous. */
  function Merged(g: Props, w: Widget, dvrt: string, vrt: string): Props
  {
    ODict.Update(ODict.Update(g, VariantProps(w, dvrt)), VariantProps(w, vrt))
  }

  /** Precedence of the merge: validated variant over default variant over
      global. */
  lemma MergePrecedence(g: Props, w: Widget, dvrt: string, vrt: string, k: string)
    requires ODict.Valid(VariantProps(w, dvrt)) && ODict.Valid(VariantProps(w, vrt))
    ensures ODict.Get(Merged(g, w, dvrt, vrt), k)
            == if ODict.HasKey(VariantProps(w, vrt), k) then ODict.Get(VariantProps(w, vrt), k)
               else if ODict.HasKey(VariantProps(w, dvrt), k) then ODict.Get(VariantProps(w, dvrt), k)
               else ODict.Get(g, k)
  {
    ODict.UpdateGet(ODict.Update(g, VariantProps(w, dvrt)), VariantProps(w, vrt), k);
    ODict.UpdateGet(g, VariantProps(w, dvrt), k);
  }

  // ------------------------------------------------------------------
  // Flattening

  /** `pal.get(v, v)` on a scalar. */
  function Subst(pal: Palette, v: Value): Value
  {
    if v.Str? then Str(ODict.Get(pal, v.s).GetOr(v.s)) else v
  }

  /** The loop over a state sub-dictionary: each entry is written into `d`
      with palette substitution; an unhashable (list or dict) value makes
      `pal.get` raise `TypeError`. */
  function ApplyState(d: Props, e: Props, pal: Palette): Result<Props, StyleError>
    decreases |e|
  {
    if e == [] then Ok(d)
    else if !e[0].1.IsScalar() then Err(TypeError)
    else ApplyState(ODict.Set(d, e[0].0, Subst(pal, e[0].1)), e[1..], pal)
  }

  /** The final `pop` loop. */
  function RemoveAll(d: Props, ks: seq<string>): Props
    decreases |ks|
  {
    if ks == [] then d else RemoveAll(ODict.Remove(d, ks[0]), ks[1..])
  }

  /** The loop over `d.items()` from position `i` on, then the pops. A state
      entry that adds a key changes the dictionary's size while it is being
      iterated, which makes the next iteration step raise `RuntimeError`. */
  function FlattenFrom(d: Props, i: nat, removed: seq<string>, state: string, pal: Palette): Result<Props, StyleError>
    decreases |d| - i
  {
    if i >= |d| then Ok(RemoveAll(d, removed))
    else
      var key := d[i].0;
      var val := d[i].1;
      match val
      case Dict(e) =>
        if key == state then
          match ApplyState(d, e, pal)
          case Err(x) => Err(x)
          case Ok(d') =>
            if |d'| != |d| then Err(RuntimeError)
            else FlattenFrom(d', i + 1, removed + [key], state, pal)
        else FlattenFrom(d, i + 1, removed + [key], state, pal)
      case List(_) => FlattenFrom(d, i + 1, removed, state, pal)
      case _ => FlattenFrom(d[i := (key, Subst(pal, val))], i + 1, removed, state, pal)
  }

  function Flatten(d: Props, state: string, pal: Palette): Result<Props, StyleError>
  {
    FlattenFrom(d, 0, [], state, pal)
  }

  /** Position of the sub-dictionary for `state`, if `d` has one. */
  function StateAt(d: Props, state: string): Option<nat>
  {
    match ODict.IndexOf(d, state)
    case None => None
    case Some(s) => if d[s].1.Dict? then Some(s) else None
  }

  function StateEntries(d: Props, state: string): Props
  {
    match StateAt(d, state)
    case None => []
    case Some(s) => d[s].1.entries
  }

  /** Entry `m` is overwritten by the state sub-dictionary. */
  predicate FromState(d: Props, state: string, m: nat)
    requires m < |d|
  {
    StateAt(d, state).Some? && ODict.HasKey(StateEntries(d, state), d[m].0)
  }

  /** The value an entry ends with when nothing overwrites it. */
  function Plain(pal: Palette, v: Value): Value
  {
    if v.List? || v.Dict? then v else Subst(pal, v)
  }

  /** The value entry `m` ends with. */
  function FinalValue(d: Props, state: string, pal: Palette, m: nat): Value
    requires m < |d|
  {
    if FromState(d, state, m) then Subst(pal, ODict.Get(StateEntries(d, state), d[m].0).GetOr(Num(0)))
    else Plain(pal, d[m].1)
  }

  /** Entry `m` is popped: it is the state sub-dictionary, or a dictionary the
      loop reached before any state entry replaced it. */
  predicate Dropped(d: Props, state: string, m: nat)
    requires m < |d|
  {
    StateAt(d, state) == Some(m)
    || (d[m].1.Dict? && !(FromState(d, state, m) && m > StateAt(d, state).value))
  }

  /** The error the flattening raises, if any. */
  function StateError(d: Props, state: string): Option<StyleError>
  {
    var e := StateEntries(d, state);
    if StateAt(d, state).None? then None
    else if exists j :: 0 <= j < |e| && !e[j].1.IsScalar() then Some(TypeError)
    else if exists j :: 0 <= j < |e| && !ODict.HasKey(d, e[j].0) then Some(RuntimeError)
    else None
  }

  /** What `get_style` promises about the flattened dictionary, stated on the
      merged dictionary `d0`. */
  ghost predicate Characterizes(d0: Props, state: string, pal: Palette, res: Result<Props, StyleError>)
  {
    match StateError(d0, state)
    case Some(x) => res == Err(x)
    case None =>
      res.Ok? && ODict.Valid(res.value)
      && (forall m :: 0 <= m < |d0| ==>
            ODict.Get(res.value, d0[m].0)
            == if Dropped(d0, state, m) then None else Some(FinalValue(d0, state, pal, m)))
      && (forall j :: 0 <= j < |res.value| ==> ODict.HasKey(d0, res.value[j].0))
  }

  lemma SubstResolved(pal: Palette, v: Value)
    requires Resolved(pal)
    ensures Subst(pal, Subst(pal, v)) == Subst(pal, v)
    ensures Subst(pal, v).Str? ==> !ODict.HasKey(pal, Subst(pal, v).s)
  {
    if v.Str? && ODict.HasKey(pal, v.s) {
      var i := ODict.IndexOf(pal, v.s).value;
      assert ODict.Get(pal, v.s) == Some(pal[i].1);
    }
  }

  ghost predicate AllScalar(e: Props)
  {
    forall j :: 0 <= j < |e| ==> e[j].1.IsScalar()
  }

  ghost predicate KeysIn(e: Props, d: Props)
  {
    forall j :: 0 <= j < |e| ==> ODict.HasKey(d, e[j].0)
  }

  /** How a dictionary relates to its tail. */
  lemma TailFacts(e: Props, d: Props)
    requires e != [] && ODict.Valid(e)
    ensures ODict.Valid(e[1..]) && !ODict.HasKey(e[1..], e[0].0)
    ensures ODict.Get(e, e[0].0) == Some(e[0].1)
    ensures forall k :: k != e[0].0 ==> (ODict.HasKey(e, k) <==> ODict.HasKey(e[1..], k))
    ensures forall k :: k != e[0].0 ==> ODict.Get(e, k) == ODict.Get(e[1..], k)
    ensures AllScalar(e) <==> e[0].1.IsScalar() && AllScalar(e[1..])
    ensures KeysIn(e, d) <==> ODict.HasKey(d, e[0].0) && KeysIn(e[1..], d)
  {
    var t := e[1..];
    assert forall j :: 0 <= j < |t| ==> t[j] == e[j + 1];
    forall k | k != e[0].0 ensures ODict.HasKey(e, k) <==> ODict.HasKey(t, k) {
      if ODict.HasKey(e, k) {
        var j :| 0 <= j < |e| && e[j].0 == k;
        assert t[j - 1].0 == k;
      }
    }
    forall k | k != e[0].0 ensures ODict.Get(e, k) == ODict.Get(t, k) {
      ODict.GetTail(e, k);
    }
    if KeysIn(t, d) && ODict.HasKey(d, e[0].0) {
      forall j | 0 <= j < |e| ensures ODict.HasKey(d, e[j].0) {
        if j > 0 { assert e[j] == t[j - 1]; }
      }
    }
    if AllScalar(t) && e[0].1.IsScalar() {
      forall j | 0 <= j < |e| ensures e[j].1.IsScalar() {
        if j > 0 { assert e[j] == t[j - 1]; }
      }
    }
  }

  lemma {:induction false} ApplyStateOk(d: Props, e: Props, pal: Palette)
    requires ODict.Valid(d) && ODict.Valid(e)
    ensures !AllScalar(e) ==> ApplyState(d, e, pal) == Err(TypeError)
    ensures AllScalar(e) ==>
              (ApplyState(d, e, pal).Ok?
               && ODict.Valid(ApplyState(d, e, pal).value)
               && |ApplyState(d, e, pal).value| >= |d|
               && (|ApplyState(d, e, pal).value| == |d| <==> KeysIn(e, d)))
    decreases |e|
  {
    if e != [] {
      TailFacts(e, d);
      if e[0].1.IsScalar() {
        var d1 := ODict.Set(d, e[0].0, Subst(pal, e[0].1));
        ODict.SetValid(d, e[0].0, Subst(pal, e[0].1));
        ApplyStateOk(d1, e[1..], pal);
        SameKeys(d, d1, e[1..]);
      }
    }
  }

  /** Assigning to a present key keeps the set of keys. */
  lemma SameKeys(d: Props, d1: Props, t: Props)
    requires |d1| >= |d|
    requires forall i :: 0 <= i < |d| ==> d1[i].0 == d[i].0
    ensures |d1| == |d| ==> (KeysIn(t, d1) <==> KeysIn(t, d))
    ensures |d1| > |d| && KeysIn(t, d) ==> KeysIn(t, d1)
  {
    forall k | ODict.HasKey(d, k) ensures ODict.HasKey(d1, k) {
      var j :| 0 <= j < |d| && d[j].0 == k;
      assert d1[j].0 == k;
    }
    if |d1| == |d| {
      forall k | ODict.HasKey(d1, k) ensures ODict.HasKey(d, k) {
        var j :| 0 <= j < |d1| && d1[j].0 == k;
        assert d[j].0 == k;
      }
    }
  }

  lemma {:induction false} ApplyStateValues(d: Props, e: Props, pal: Palette)
    requires ODict.Valid(d) && ODict.Valid(e) && AllScalar(e) && KeysIn(e, d)
    ensures ApplyState(d, e, pal).Ok?
    ensures var d' := ApplyState(d, e, pal).value;
            |d'| == |d|
            && forall m :: 0 <= m < |d| ==>
                 (d'[m].0 == d[m].0
                  && d'[m].1 == if ODict.HasKey(e, d[m].0)
                                then Subst(pal, ODict.Get(e, d[m].0).GetOr(Num(0)))
                                else d[m].1)
    decreases |e|
  {
    ApplyStateOk(d, e, pal);
    if e != [] {
      TailFacts(e, d);
      var d1 := ODict.Set(d, e[0].0, Subst(pal, e[0].1));
      ODict.SetValid(d, e[0].0, Subst(pal, e[0].1));
      SameKeys(d, d1, e[1..]);
      ApplyStateValues(d1, e[1..], pal);
    }
  }

  /** The value entry `m` holds before position `i` is visited. */
  function MidValue(d0: Props, state: string, pal: Palette, i: nat, m: nat): Value
    requires m < |d0|
  {
    var applied := StateAt(d0, state).Some? && StateAt(d0, state).value < i;
    if applied && FromState(d0, state, m) then FinalValue(d0, state, pal, m)
    else if m < i then Plain(pal, d0[m].1)
    else d0[m].1
  }

  /** Positions before `i` carry their intermediate value. */
  ghost predicate ValuesAt(d0: Props, state: string, pal: Palette, d: Props, i: nat)
  {
    |d| == |d0|
    && forall m :: 0 <= m < |d| ==> d[m].0 == d0[m].0 && d[m].1 == MidValue(d0, state, pal, i, m)
  }

  /** `removed` lists exactly the dropped keys before position `i`. */
  ghost predicate RemovedUpTo(d0: Props, state: string, removed: seq<string>, i: nat)
    requires i <= |d0|
  {
    (forall k :: k in removed ==> exists m :: 0 <= m < i && d0[m].0 == k && Dropped(d0, state, m))
    && (forall m :: 0 <= m < i && Dropped(d0, state, m) ==> d0[m].0 in removed)
  }

  ghost predicate FlattenInv(d0: Props, state: string, pal: Palette, d: Props, i: nat, removed: seq<string>)
  {
    i <= |d0| && ValuesAt(d0, state, pal, d, i)
    && (StateAt(d0, state).Some? && StateAt(d0, state).value < i ==> StateError(d0, state).None?)
    && RemovedUpTo(d0, state, removed, i)
  }

  lemma RemovedStep(d0: Props, state: string, removed: seq<string>, i: nat)
    requires i < |d0| && RemovedUpTo(d0, state, removed, i)
    ensures var removed' := if Dropped(d0, state, i) then removed + [d0[i].0] else removed;
            RemovedUpTo(d0, state, removed', i + 1)
  {
    var removed' := if Dropped(d0, state, i) then removed + [d0[i].0] else removed;
    forall k | k in removed' ensures exists m :: 0 <= m < i + 1 && d0[m].0 == k && Dropped(d0, state, m) {
      if k !in removed {
        assert d0[i].0 == k && Dropped(d0, state, i);
      }
    }
  }

  lemma RemoveAllSpec(d: Props, ks: seq<string>)
    requires ODict.Valid(d)
    ensures ODict.Valid(RemoveAll(d, ks))
    ensures forall k :: ODict.Get(RemoveAll(d, ks), k) == if k in ks then None else ODict.Get(d, k)
    ensures forall j :: 0 <= j < |RemoveAll(d, ks)| ==> ODict.HasKey(d, RemoveAll(d, ks)[j].0)
    decreases |ks|
  {
    if ks != [] {
      forall k ensures ODict.Get(ODict.Remove(d, ks[0]), k) == if k == ks[0] then None else ODict.Get(d, k) {
        ODict.RemoveGet(d, ks[0], k);
      }
      ODict.RemoveGet(d, ks[0], ks[0]);
      ODict.RemoveKeys(d, ks[0]);
      RemoveAllSpec(ODict.Remove(d, ks[0]), ks[1..]);
    }
  }

  lemma ValidOfKeys(d0: Props, d: Props)
    requires ODict.Valid(d0) && |d| == |d0|
    requires forall m :: 0 <= m < |d| ==> d[m].0 == d0[m].0
    ensures ODict.Valid(d)
    ensures forall k :: ODict.HasKey(d, k) <==> ODict.HasKey(d0, k)
  {
    forall k ensures ODict.HasKey(d, k) <==> ODict.HasKey(d0, k) {
      if ODict.HasKey(d, k) {
        var j :| 0 <= j < |d| && d[j].0 == k;
        assert d0[j].0 == k;
      }
      if ODict.HasKey(d0, k) {
        var j :| 0 <= j < |d0| && d0[j].0 == k;
        assert d[j].0 == k;
      }
    }
  }

  lemma {:induction false} FlattenFromSpec(d0: Props, state: string, pal: Palette, d: Props, i: nat, removed: seq<string>)
    requires ODict.Valid(d0) && ODict.Valid(StateEntries(d0, state)) && Resolved(pal)
    requires FlattenInv(d0, state, pal, d, i, removed)
    ensures Characterizes(d0, state, pal, FlattenFrom(d, i, removed, state, pal))
    decreases |d0| - i
  {
    ValidOfKeys(d0, d);
    if i >= |d| {
      var r := RemoveAll(d, removed);
      RemoveAllSpec(d, removed);
      assert StateError(d0, state).None?;
      forall m | 0 <= m < |d0|
        ensures ODict.Get(r, d0[m].0)
                == if Dropped(d0, state, m) then None else Some(FinalValue(d0, state, pal, m))
      {
        ODict.GetAt(d, m);
        assert d0[m].0 in removed <==> Dropped(d0, state, m) by {
          if d0[m].0 in removed {
            var m' :| 0 <= m' < i && d0[m'].0 == d0[m].0 && Dropped(d0, state, m');
            assert m' == m;
          }
        }
      }
      forall j | 0 <= j < |r| ensures ODict.HasKey(d0, r[j].0) { }
    } else if StateAt(d0, state) == Some(i) {
      FlattenStateStep(d0, state, pal, d, i, removed);
    } else if d[i].1.Dict? {
      FlattenDictStep(d0, state, pal, d, i, removed);
    } else {
      FlattenValueStep(d0, state, pal, d, i, removed);
    }
  }

  /** Visiting the state sub-dictionary. */
  lemma {:induction false} FlattenStateStep(d0: Props, state: string, pal: Palette, d: Props, i: nat, removed: seq<string>)
    requires ODict.Valid(d0) && ODict.Valid(StateEntries(d0, state)) && Resolved(pal)
    requires FlattenInv(d0, state, pal, d, i, removed) && i < |d0| && StateAt(d0, state) == Some(i)
    ensures Characterizes(d0, state, pal, FlattenFrom(d, i, removed, state, pal))
    decreases |d0| - i, 1
  {
    var e := StateEntries(d0, state);
    if AllScalar(e) && KeysIn(e, d0) {
      FlattenStateApplied(d0, state, pal, d, i, removed);
    } else {
      FlattenStateFails(d0, state, pal, d, i, removed);
    }
  }

  /** A state sub-dictionary with an unhashable value raises `TypeError`;
      one that adds a key raises `RuntimeError`. */
  lemma FlattenStateFails(d0: Props, state: string, pal: Palette, d: Props, i: nat, removed: seq<string>)
    requires ODict.Valid(d0) && ODict.Valid(StateEntries(d0, state))
    requires FlattenInv(d0, state, pal, d, i, removed) && i < |d0| && StateAt(d0, state) == Some(i)
    requires !(AllScalar(StateEntries(d0, state)) && KeysIn(StateEntries(d0, state), d0))
    ensures Characterizes(d0, state, pal, FlattenFrom(d, i, removed, state, pal))
  {
    ValidOfKeys(d0, d);
    var e := StateEntries(d0, state);
    assert d[i].1 == d0[i].1 && d[i].0 == state;
    assert d[i].1 == Dict(e);
    ApplyStateOk(d, e, pal);
    if !AllScalar(e) {
      assert exists j :: 0 <= j < |e| && !e[j].1.IsScalar();
      assert StateError(d0, state) == Some(TypeError);
      assert FlattenFrom(d, i, removed, state, pal) == Err(TypeError);
    } else {
      assert exists j :: 0 <= j < |e| && !ODict.HasKey(d0, e[j].0);
      assert !KeysIn(e, d);
      assert StateError(d0, state) == Some(RuntimeError);
      assert FlattenFrom(d, i, removed, state, pal) == Err(RuntimeError);
    }
  }

  lemma {:induction false} FlattenStateApplied(d0: Props, state: string, pal: Palette, d: Props, i: nat, removed: seq<string>)
    requires ODict.Valid(d0) && ODict.Valid(StateEntries(d0, state)) && Resolved(pal)
    requires FlattenInv(d0, state, pal, d, i, removed) && i < |d0| && StateAt(d0, state) == Some(i)
    requires AllScalar(StateEntries(d0, state)) && KeysIn(StateEntries(d0, state), d0)
    ensures Characterizes(d0, state, pal, FlattenFrom(d, i, removed, state, pal))
    decreases |d0| - i, 0
  {
    ValidOfKeys(d0, d);
    var e := StateEntries(d0, state);
    assert d[i].1 == d0[i].1 && d[i].0 == state;
    assert KeysIn(e, d);
    StateInvStep(d0, state, pal, d, i, removed);
    ApplyStateOk(d, e, pal);
    var d' := ApplyState(d, e, pal).value;
    assert FlattenFrom(d, i, removed, state, pal) == FlattenFrom(d', i + 1, removed + [state], state, pal);
    FlattenFromSpec(d0, state, pal, d', i + 1, removed + [state]);
  }

  lemma StateInvStep(d0: Props, state: string, pal: Palette, d: Props, i: nat, removed: seq<string>)
    requires ODict.Valid(d0) && ODict.Valid(StateEntries(d0, state))
    requires FlattenInv(d0, state, pal, d, i, removed) && i < |d0| && StateAt(d0, state) == Some(i)
    requires AllScalar(StateEntries(d0, state)) && KeysIn(StateEntries(d0, state), d0)
    ensures ODict.Valid(d) && ApplyState(d, StateEntries(d0, state), pal).Ok?
    ensures FlattenInv(d0, state, pal, ApplyState(d, StateEntries(d0, state), pal).value, i + 1, removed + [state])
  {
    ValidOfKeys(d0, d);
    var e := StateEntries(d0, state);
    assert KeysIn(e, d);
    StateValuesStep(d0, state, pal, d, i);
    var d' := ApplyState(d, e, pal).value;
    assert ValuesAt(d0, state, pal, d', i + 1);
    assert StateError(d0, state).None?;
    assert Dropped(d0, state, i) && d0[i].0 == state;
    RemovedStep(d0, state, removed, i);
    assert RemovedUpTo(d0, state, removed + [state], i + 1);
  }

  lemma StateValuesStep(d0: Props, state: string, pal: Palette, d: Props, i: nat)
    requires ODict.Valid(d) && ODict.Valid(StateEntries(d0, state))
    requires ValuesAt(d0, state, pal, d, i) && i < |d0| && StateAt(d0, state) == Some(i)
    requires AllScalar(StateEntries(d0, state)) && KeysIn(StateEntries(d0, state), d)
    ensures ApplyState(d, StateEntries(d0, state), pal).Ok?
    ensures ValuesAt(d0, state, pal, ApplyState(d, StateEntries(d0, state), pal).value, i + 1)
  {
    var e := StateEntries(d0, state);
    ApplyStateValues(d, e, pal);
    var d' := ApplyState(d, e, pal).value;
    forall m | 0 <= m < |d'|
      ensures d'[m].0 == d0[m].0 && d'[m].1 == MidValue(d0, state, pal, i + 1, m)
    {
    }
  }

  /** Away from the state sub-dictionary, position `i` moves to its plain
      value and nothing else changes. */
  lemma MidValueStep(d0: Props, state: string, pal: Palette, d: Props, i: nat, removed: seq<string>)
    requires ODict.Valid(StateEntries(d0, state)) && Resolved(pal)
    requires FlattenInv(d0, state, pal, d, i, removed) && i < |d0| && StateAt(d0, state) != Some(i)
    ensures forall m :: 0 <= m < |d0| ==>
              MidValue(d0, state, pal, i + 1, m) == (if m == i then Plain(pal, d[i].1) else d[m].1)
  {
    var sa := StateAt(d0, state);
    forall m | 0 <= m < |d0|
      ensures MidValue(d0, state, pal, i + 1, m) == (if m == i then Plain(pal, d[i].1) else d[m].1)
    {
      if m == i && sa.Some? && sa.value < i && FromState(d0, state, i) {
        SubstResolved(pal, ODict.Get(StateEntries(d0, state), d0[i].0).GetOr(Num(0)));
      }
    }
  }

  lemma DictInvStep(d0: Props, state: string, pal: Palette, d: Props, i: nat, removed: seq<string>)
    requires ODict.Valid(d0) && ODict.Valid(StateEntries(d0, state)) && Resolved(pal)
    requires FlattenInv(d0, state, pal, d, i, removed) && i < |d0| && StateAt(d0, state) != Some(i)
    requires d[i].1.Dict?
    ensures d[i].0 != state
    ensures FlattenInv(d0, state, pal, d, i + 1, removed + [d[i].0])
  {
    MidValueStep(d0, state, pal, d, i, removed);
    ODict.GetAt(d0, i);
    assert d0[i].1.Dict?;
    assert Dropped(d0, state, i);
    RemovedStep(d0, state, removed, i);
  }

  /** Visiting another dictionary: it is marked for removal. */
  lemma {:induction false} FlattenDictStep(d0: Props, state: string, pal: Palette, d: Props, i: nat, removed: seq<string>)
    requires ODict.Valid(d0) && ODict.Valid(StateEntries(d0, state)) && Resolved(pal)
    requires FlattenInv(d0, state, pal, d, i, removed) && i < |d0| && StateAt(d0, state) != Some(i)
    requires d[i].1.Dict?
    ensures Characterizes(d0, state, pal, FlattenFrom(d, i, removed, state, pal))
    decreases |d0| - i, 0
  {
    DictInvStep(d0, state, pal, d, i, removed);
    assert FlattenFrom(d, i, removed, state, pal) == FlattenFrom(d, i + 1, removed + [d[i].0], state, pal);
    FlattenFromSpec(d0, state, pal, d, i + 1, removed + [d[i].0]);
  }

  lemma ValueInvStep(d0: Props, state: string, pal: Palette, d: Props, i: nat, removed: seq<string>)
    requires ODict.Valid(StateEntries(d0, state)) && Resolved(pal)
    requires FlattenInv(d0, state, pal, d, i, removed) && i < |d0| && StateAt(d0, state) != Some(i)
    requires !d[i].1.Dict?
    ensures FlattenInv(d0, state, pal, if d[i].1.List? then d else d[i := (d[i].0, Subst(pal, d[i].1))], i + 1, removed)
  {
    MidValueStep(d0, state, pal, d, i, removed);
    assert !Dropped(d0, state, i);
    RemovedStep(d0, state, removed, i);
  }

  /** Visiting a list or a scalar: the scalar is substituted in place. */
  lemma {:induction false} FlattenValueStep(d0: Props, state: string, pal: Palette, d: Props, i: nat, removed: seq<string>)
    requires ODict.Valid(d0) && ODict.Valid(StateEntries(d0, state)) && Resolved(pal)
    requires FlattenInv(d0, state, pal, d, i, removed) && i < |d0| && StateAt(d0, state) != Some(i)
    requires !d[i].1.Dict?
    ensures Characterizes(d0, state, pal, FlattenFrom(d, i, removed, state, pal))
    decreases |d0| - i, 0
  {
    ValueInvStep(d0, state, pal, d, i, removed);
    if d[i].1.List? {
      assert FlattenFrom(d, i, removed, state, pal) == FlattenFrom(d, i + 1, removed, state, pal);
      FlattenFromSpec(d0, state, pal, d, i + 1, removed);
    } else {
      var d' := d[i := (d[i].0, Subst(pal, d[i].1))];
      assert FlattenFrom(d, i, removed, state, pal) == FlattenFrom(d', i + 1, removed, state, pal);
      FlattenFromSpec(d0, state, pal, d', i + 1, removed);
    }
  }

  /** The flattening of `get_style`, entry by entry: a key of the merged
      dictionary is dropped when it is the state sub-dictionary or another
      dictionary; otherwise it keeps a list as is, takes the state entry's
      value when the state sub-dictionary names it, and has every string
      naming a palette key replaced by that key's value. No other key
      appears. The state sub-dictionary raises `TypeError` for a list or dict
      value and `RuntimeError` for a key the merged dictionary lacks. */
  lemma FlattenSpec(d: Props, state: string, pal: Palette)
    requires ODict.Valid(d) && ODict.Valid(StateEntries(d, state)) && Resolved(pal)
    ensures Characterizes(d, state, pal, Flatten(d, state, pal))
  {
    FlattenFromSpec(d, state, pal, d, 0, []);
  }

  /** No dictionary value survives flattening, and no string value names a
      palette key. */
  lemma FlattenedIsFlat(d: Props, state: string, pal: Palette)
    requires ODict.Valid(d) && ODict.Valid(StateEntries(d, state)) && Resolved(pal)
    requires Flatten(d, state, pal).Ok?
    ensures forall j :: 0 <= j < |Flatten(d, state, pal).value| ==>
              var v := Flatten(d, state, pal).value[j].1;
              !v.Dict? && (v.Str? ==> !ODict.HasKey(pal, v.s))
  {
    FlattenSpec(d, state, pal);
    var r := Flatten(d, state, pal).value;
    forall j | 0 <= j < |r| ensures !r[j].1.Dict? && (r[j].1.Str? ==> !ODict.HasKey(pal, r[j].1.s)) {
      var m := ODict.IndexOf(d, r[j].0).value;
      ODict.GetAt(r, j);
      assert !Dropped(d, state, m);
      var sv := ODict.Get(StateEntries(d, state), d[m].0).GetOr(Num(0));
      SubstResolved(pal, sv);
      SubstResolved(pal, d[m].1);
      if FromState(d, state, m) {
        assert StateError(d, state).None?;
        var e := StateEntries(d, state);
        var q := ODict.IndexOf(e, d[m].0).value;
        assert e[q].1.IsScalar();
      }
    }
  }

  // ------------------------------------------------------------------
  // get_style

  /** `f"{widget}-{variant}-{state}"`, `None` printing as `None`. */
  function CacheKey(widget: string, variant: Option<string>, state: string): string
  {
    widget + "-" + variant.GetOr("None") + "-" + state
  }

  /** The memo key is the raw request: different requests can share it. */
  lemma CacheKeyShared()
    ensures CacheKey("QPushButton", None, "base") == CacheKey("QPushButton", Some("None"), "base")
    ensures CacheKey("a-b", Some("c"), "base") == CacheKey("a", Some("b-c"), "base")
  {
  }

  /** What `get_style` computes on a cache miss. */
  function ComputeStyle(t: Theme, widget: string, variant: Option<string>, state: string): Result<Props, StyleError>
  {
    match WidgetData(t, widget)
    case Err(x) => Err(x)
    case Ok(w) =>
      match ValidateVariant(w, variant)
      case Err(x) => Err(x)
      case Ok(vrt) =>
        match DefaultVariant(w)
        case Err(x) => Err(x)
        case Ok(dvrt) =>
          match t.global
          case None => Err(KeyError("global"))
          case Some(g) => Flatten(Merged(g, w, dvrt, vrt), state, PaletteOf(t))
  }

  /** The exceptions of `get_style`, in the order the code raises them:
      `KeyError` for a missing widgets table, `IndexError` for a widget
      without variants, `KeyError` for a missing global table. */
  lemma ComputeStyleErrors(t: Theme, widget: string, variant: Option<string>, state: string)
    ensures t.widgets.None? ==> ComputeStyle(t, widget, variant, state) == Err(KeyError("widgets"))
    ensures t.widgets.Some? && VariantKeys(WidgetData(t, widget).value) == []
            ==> ComputeStyle(t, widget, variant, state) == Err(IndexError)
    ensures t.widgets.Some? && VariantKeys(WidgetData(t, widget).value) != [] && t.global.None?
            ==> ComputeStyle(t, widget, variant, state) == Err(KeyError("global"))
  {
  }

  lemma MergedValid(t: Theme, w: Widget, dvrt: string, vrt: string, state: string)
    requires WellFormed(t) && t.global.Some? && WidgetValid(w)
    ensures ODict.Valid(Merged(t.global.value, w, dvrt, vrt))
    ensures ODict.Valid(StateEntries(Merged(t.global.value, w, dvrt, vrt), state))
  {
    var g := t.global.value;
    var dv := VariantProps(w, dvrt);
    var v := VariantProps(w, vrt);
    assert PropsValid(dv) by {
      if w.variants.Some? && ODict.HasKey(w.variants.value, dvrt) {
        var j := ODict.IndexOf(w.variants.value, dvrt).value;
        assert PropsValid(w.variants.value[j].1);
      }
    }
    assert PropsValid(v) by {
      if w.variants.Some? && ODict.HasKey(w.variants.value, vrt) {
        var j := ODict.IndexOf(w.variants.value, vrt).value;
        assert PropsValid(w.variants.value[j].1);
      }
    }
    ODict.UpdateValid(g, dv);
    ODict.UpdateValid(ODict.Update(g, dv), v);
    var d := Merged(g, w, dvrt, vrt);
    if StateAt(d, state).Some? {
      var s := StateAt(d, state).value;
      MergePrecedence(g, w, dvrt, vrt, state);
      var val := d[s].1;
      ODict.GetAt(d, s);
      assert ODict.Get(d, state) == Some(val);
      if ODict.HasKey(v, state) {
        var j := ODict.IndexOf(v, state).value;
        assert v[j].1 == val;
      } else if ODict.HasKey(dv, state) {
        var j := ODict.IndexOf(dv, state).value;
        assert dv[j].1 == val;
      } else {
        var j := ODict.IndexOf(g, state).value;
        assert g[j].1 == val;
      }
    }
  }

  lemma WidgetDataValid(t: Theme, widget: string)
    requires WellFormed(t) && t.widgets.Some?
    ensures WidgetValid(WidgetData(t, widget).value)
  {
    var ws := t.widgets.value;
    if ODict.HasKey(ws, widget) {
      var j := ODict.IndexOf(ws, widget).value;
      assert WidgetValid(ws[j].1);
    }
  }

  /** A style `get_style` returns holds no dictionary value and no string
      naming a palette key, and its keys are keys of the merged dictionary. */
  lemma ComputedStyleIsFlat(t: Theme, widget: string, variant: Option<string>, state: string)
    requires WellFormed(t) && Resolved(PaletteOf(t))
    requires ComputeStyle(t, widget, variant, state).Ok?
    ensures forall j :: 0 <= j < |ComputeStyle(t, widget, variant, state).value| ==>
              var v := ComputeStyle(t, widget, variant, state).value[j].1;
              !v.Dict? && (v.Str? ==> !ODict.HasKey(PaletteOf(t), v.s))
  {
    var w := WidgetData(t, widget).value;
    WidgetDataValid(t, widget);
    var vrt := ValidateVariant(w, variant).value;
    var dvrt := DefaultVariant(w).value;
    MergedValid(t, w, dvrt, vrt, state);
    FlattenedIsFlat(Merged(t.global.value, w, dvrt, vrt), state, PaletteOf(t));
  }

  /** The theme store with its memo cache. */
  class Store {
    const theme: Theme
    var cache: map<string, Props>
    var lastKey: string
    /** The request that filled each cache entry. */
    ghost var requests: map<string, (string, Option<string>, string)>

    ghost predicate Valid()
      reads this
    {
      WellFormed(theme) && Resolved(PaletteOf(theme))
      && cache.Keys == requests.Keys
      && forall k :: k in cache ==>
           CacheKey(requests[k].0, requests[k].1, requests[k].2) == k
           && ComputeStyle(theme, requests[k].0, requests[k].1, requests[k].2) == Ok(cache[k])
    }

    constructor (t: Theme)
      requires WellFormed(t) && Resolved(PaletteOf(t))
      ensures Valid() && theme == t && cache == map[] && lastKey == ""
    {
      theme := t;
      cache := map[];
      lastKey := "";
      requests := map[];
    }

    /** `current_style`: the entry of the last cache miss. */
    function CurrentStyle(): (r: Result<Props, StyleError>)
      reads this
      ensures r.Ok? <==> lastKey in cache
    {
      if lastKey in cache then Ok(cache[lastKey]) else Err(KeyError(lastKey))
    }

    /** `get_style`: a cached key returns the stored dictionary and changes
        nothing; a miss computes the style, stores it under the raw key and
        records that key as the last one. An exception leaves the cache and
        the last key as they were. */
    method GetStyle(widget: string, variant: Option<string>, state: string) returns (r: Result<Props, StyleError>)
      requires Valid()
      modifies this
      ensures Valid()
      ensures var key := CacheKey(widget, variant, state);
              if key in old(cache) then
                r == Ok(old(cache)[key]) && cache == old(cache) && lastKey == old(lastKey)
              else
                r == ComputeStyle(theme, widget, variant, state)
                && (r.Ok? ==> cache == old(cache)[key := r.value] && lastKey == key && CurrentStyle() == r)
                && (r.Err? ==> cache == old(cache) && lastKey == old(lastKey))
    {
      var key := CacheKey(widget, variant, state);
      if key in cache {
        return Ok(cache[key]);
      }
      var wd := WidgetData(theme, widget);
      if wd.Err? { return Err(wd.error); }
      var w := wd.value;
      var vr := ValidateVariant(w, variant);
      if vr.Err? { return Err(vr.error); }
      var dv := DefaultVariant(w);
      if dv.Err? { return Err(dv.error); }
      var pal := PaletteOf(theme);
      if theme.global.None? { return Err(KeyError("global")); }
      var d := ODict.Update(theme.global.value, VariantProps(w, dv.value));
      d := ODict.Update(d, VariantProps(w, vr.value));
      assert ComputeStyle(theme, widget, variant, state) == Flatten(d, state, pal);
      r := FlattenLoop(d, state, pal);
      if r.Err? { return; }
      d := r.value;
      lastKey := key;
      cache := cache[key := d];
      requests := requests[key := (widget, variant, state)];
    }
  }

  /** The loop of `get_style` over the merged dictionary, then the pops. */
  method FlattenLoop(d0: Props, state: string, pal: Palette) returns (r: Result<Props, StyleError>)
    ensures r == Flatten(d0, state, pal)
  {
    var d := d0;
    var removed: seq<string> := [];
    var i := 0;
    while i < |d|
      invariant 0 <= i <= |d|
      invariant FlattenFrom(d, i, removed, state, pal) == Flatten(d0, state, pal)
      decreases |d| - i
    {
      var key := d[i].0;
      var val := d[i].1;
      if val.Dict? {
        if key == state {
          var a := ApplyStateLoop(d, val.entries, pal);
          if a.Err? {
            return Err(a.error);
          }
          if |a.value| != |d| {
            return Err(RuntimeError);
          }
          d := a.value;
        }
        removed := removed + [key];
      } else if !val.List? {
        d := d[i := (key, Subst(pal, val))];
      }
      i := i + 1;
    }
    var k := 0;
    ghost var dn := d;
    while k < |removed|
      invariant 0 <= k <= |removed|
      invariant RemoveAll(d, removed[k..]) == RemoveAll(dn, removed)
      decreases |removed| - k
    {
      assert removed[k..][1..] == removed[k + 1..];
      d := ODict.Remove(d, removed[k]);
      k := k + 1;
    }
    return Ok(d);
  }

  /** The inner loop writing the state sub-dictionary's entries. */
  method ApplyStateLoop(d: Props, e: Props, pal: Palette) returns (r: Result<Props, StyleError>)
    ensures r == ApplyState(d, e, pal)
  {
    var dd := d;
    var j := 0;
    while j < |e|
      invariant 0 <= j <= |e|
      invariant ApplyState(dd, e[j..], pal) == ApplyState(d, e, pal)
      decreases |e| - j
    {
      assert e[j..][1..] == e[j + 1..];
      if !e[j].1.IsScalar() {
        return Err(TypeError);
      }
      dd := ODict.Set(dd, e[j].0, Subst(pal, e[j].1));
      j := j + 1;
    }
    return Ok(dd);
  }

  /** `StyleData.__init__` after reading the theme file: the palette loops of
      the constructor, then an empty cache. */
  method Load(t: Theme, hsl: string -> string) returns (r: Result<Store, StyleError>)
    requires WellFormed(t)
    ensures r.Err? <==> LoadPalette(PaletteOf(t), hsl).Err?
    ensures r.Err? ==> r.error == LoadPalette(PaletteOf(t), hsl).error
    ensures r.Ok? ==> fresh(r.value) && r.value.Valid()
                      && r.value.cache == map[] && r.value.lastKey == ""
                      && r.value.theme == (if t.palette.None? then t
                                           else t.(palette := Some(LoadPalette(PaletteOf(t), hsl).value)))
  {
    var p0 := HslLoop(PaletteOf(t), hsl);
    var p := ResolveLoop(p0);
    var bad := FirstUnresolvedLoop(p);
    if bad.Some? {
      return Err(ValueError(bad.value));
    }
    var t' := if t.palette.None? then t else t.(palette := Some(p));
    assert t.palette.None? ==> p == [];
    ResolveFromSpec(p0, 0);
    ValidOfPalette(PaletteOf(t), p);
    var s := new Store(t');
    return Ok(s);
  }

  /** The first palette loop: `hsl(...)` values converted in place. */
  method HslLoop(p0: Palette, hsl: string -> string) returns (p: Palette)
    ensures p == HslConverted(p0, hsl)
  {
    p := p0;
    var i := 0;
    while i < |p|
      invariant 0 <= i <= |p| && |p| == |p0|
      invariant forall m :: 0 <= m < |p| ==> p[m] == if m < i then HslEntry(p0[m], hsl) else p0[m]
      decreases |p| - i
    {
      if Text.StartsWith(p[i].1, "hsl(") {
        p := p[i := (p[i].0, hsl(p[i].1))];
      }
      i := i + 1;
    }
  }

  /** The second palette loop: each value replaced by the entry it names. */
  method ResolveLoop(p0: Palette) returns (p: Palette)
    ensures p == ResolveAliases(p0)
  {
    p := p0;
    var i := 0;
    while i < |p|
      invariant 0 <= i <= |p|
      invariant ResolveFrom(p, i) == ResolveAliases(p0)
      decreases |p| - i
    {
      p := p[i := (p[i].0, ODict.Get(p, p[i].1).GetOr(p[i].1))];
      i := i + 1;
    }
  }

  /** The third palette loop, which raises on the first unresolved entry. */
  method FirstUnresolvedLoop(p: Palette) returns (r: Option<string>)
    ensures r == FirstUnresolved(p)
  {
    var i := 0;
    while i < |p|
      invariant 0 <= i <= |p|
      invariant FirstUnresolved(p) == FirstUnresolvedFrom(p, i)
      decreases |p| - i
    {
      if ODict.HasKey(p, p[i].1) {
        return Some(p[i].0);
      }
      i := i + 1;
    }
    return None;
  }

  lemma ValidOfPalette(p0: Palette, p: Palette)
    requires ODict.Valid(p0) && |p| == |p0|
    requires forall m :: 0 <= m < |p| ==> p[m].0 == p0[m].0
    ensures ODict.Valid(p)
  {
  }
}
