/** Restyling a widget tree: the depth-first collection of a widget, its
    widget children and the widgets of its layout, guarded by a set of seen
    ids; the lazily created style singleton; the restyling loop that clears
    and restores the application stylesheet around it; and the event-filter
    installation over the same collection. Widgets are ids in a graph. */
module WidgetTree {
  import opened Wrappers

  type Id = nat

  /** A widget: its `children()` (`None` for a child that is not a widget),
      the items of its layout if it has one (`None` for an item without a
      widget), and whether it has a `paintEvent` attribute. Every `QWidget`
      inherits `paintEvent`, so for real widgets the flag is always true and
      the filter is never installed; it is kept free to state the guard. */
  datatype Node = Node(children: seq<Option<Id>>, layout: Option<seq<Option<Id>>>, hasPaintEvent: bool)

  type Graph = map<Id, Node>

  /** The widget ids of a child or item list, in order. */
  function WidgetIds(s: seq<Option<Id>>): (r: seq<Id>)
    ensures forall x :: x in r <==> Some(x) in s
  {
    if s == [] then []
    else (if s[0].Some? then [s[0].value] else []) + WidgetIds(s[1..])
  }

  lemma WidgetIdsSnoc(s: seq<Option<Id>>, i: nat)
    requires i < |s|
    ensures WidgetIds(s[..i + 1]) == WidgetIds(s[..i]) + (if s[i].Some? then [s[i].value] else [])
    decreases i
  {
    if i > 0 {
      assert s[..i + 1][1..] == s[1..][..i];
      assert s[..i][1..] == s[1..][..i - 1];
      WidgetIdsSnoc(s[1..], i - 1);
    }
  }

  /** The order of a visit: the widget children first, then the layout's
      widgets. */
  function Successors(g: Graph, w: Id): seq<Id>
  {
    if w !in g then []
    else WidgetIds(g[w].children) + (if g[w].layout.Some? then WidgetIds(g[w].layout.value) else [])
  }

  /** Every widget a node points to is a node. */
  ghost predicate Closed(g: Graph)
  {
    forall w {:trigger NodeClosed(g, w)} :: w in g ==> NodeClosed(g, w)
  }

  ghost predicate NodeClosed(g: Graph, w: Id)
    requires w in g
  {
    forall x :: x in Successors(g, w) ==> x in g
  }

  lemma ConcatAssoc<T>(a: seq<T>, b: seq<T>, c: seq<T>)
    ensures (a + b) + c == a + (b + c)
  {
  }

  lemma SubsetCard<T>(a: set<T>, b: set<T>)
    requires a <= b
    ensures |a| <= |b|
    decreases |a|
  {
    if a != {} {
      var y :| y in a;
      SubsetCard(a - {y}, b - {y});
    }
  }

  lemma ProperSubsetCard<T>(a: set<T>, b: set<T>)
    requires a <= b && exists x :: x in b && x !in a
    ensures |a| < |b|
  {
    var x :| x in b && x !in a;
    SubsetCard(a, b - {x});
  }

  // ------------------------------------------------------------------
  // The collection, as a function

  /** The outcome of a collection: the seen set and the widgets appended. */
  datatype Visit = Visit(seen: set<Id>, out: seq<Id>)

  /** `_collect_widgets(w, seen)`: a seen widget adds nothing; otherwise the
      widget is appended, then each successor is collected in turn. */
  function Collect(g: Graph, w: Id, seen: set<Id>): (r: Visit)
    requires Closed(g) && w in g
    ensures seen <= r.seen
    decreases |g.Keys - seen|, 0
  {
    if w in seen then Visit(seen, [])
    else
      assert NodeClosed(g, w);
      ProperSubsetCard(g.Keys - (seen + {w}), g.Keys - seen);
      var rest := CollectAll(g, Successors(g, w), seen + {w});
      Visit(rest.seen, [w] + rest.out)
  }

  /** Collecting a list of widgets in order, threading the seen set. */
  function CollectAll(g: Graph, ws: seq<Id>, seen: set<Id>): (r: Visit)
    requires Closed(g) && forall x :: x in ws ==> x in g
    ensures seen <= r.seen
    decreases |g.Keys - seen|, 1, |ws|
  {
    if ws == [] then Visit(seen, [])
    else
      var a := Collect(g, ws[0], seen);
      SubsetCard(g.Keys - a.seen, g.Keys - seen);
      var b := CollectAll(g, ws[1..], a.seen);
      Visit(b.seen, a.out + b.out)
  }

  lemma {:induction false} CollectAllConcat(g: Graph, a: seq<Id>, b: seq<Id>, seen: set<Id>)
    requires Closed(g) && (forall x :: x in a ==> x in g) && (forall x :: x in b ==> x in g)
    ensures var ra := CollectAll(g, a, seen);
            var rb := CollectAll(g, b, ra.seen);
            CollectAll(g, a + b, seen) == Visit(rb.seen, ra.out + rb.out)
    decreases |a|
  {
    if a != [] {
      assert (a + b)[0] == a[0];
      assert (a + b)[1..] == a[1..] + b;
      var h := Collect(g, a[0], seen);
      assert forall x :: x in a[1..] ==> x in a;
      var ra := CollectAll(g, a[1..], h.seen);
      var rb := CollectAll(g, b, ra.seen);
      assert CollectAll(g, a, seen) == Visit(ra.seen, h.out + ra.out);
      var rab := CollectAll(g, a[1..] + b, h.seen);
      assert CollectAll(g, a + b, seen) == Visit(rab.seen, h.out + rab.out);
      CollectAllConcat(g, a[1..], b, h.seen);
      ConcatAssoc(h.out, ra.out, rb.out);
    } else {
      assert a + b == b;
    }
  }

  lemma CollectAllOne(g: Graph, c: Id, seen: set<Id>)
    requires Closed(g) && c in g
    ensures CollectAll(g, [c], seen) == Collect(g, c, seen)
  {
    assert [c][1..] == [];
  }

  // ------------------------------------------------------------------
  // What the collection promises

  ghost predicate Distinct(s: seq<Id>)
  {
    forall i, j :: 0 <= i < j < |s| ==> s[i] != s[j]
  }

  function Elems(s: seq<Id>): set<Id>
  {
    set x | x in s
  }

  lemma DistinctConcat(a: seq<Id>, b: seq<Id>)
    requires Distinct(a) && Distinct(b) && Elems(a) !! Elems(b)
    ensures Distinct(a + b) && Elems(a + b) == Elems(a) + Elems(b)
  {
    forall i, j | 0 <= i < j < |a + b| ensures (a + b)[i] != (a + b)[j] {
      if i < |a| && j >= |a| {
        assert (a + b)[i] in Elems(a);
        assert (a + b)[j] == b[j - |a|];
        assert (a + b)[j] in Elems(b);
      }
    }
  }

  /** Each widget is appended once: the new ids are distinct, were not seen
      before, and are exactly what the seen set gains. */
  lemma {:induction false} CollectOnce(g: Graph, w: Id, seen: set<Id>)
    requires Closed(g) && w in g
    ensures var r := Collect(g, w, seen);
            r.seen == seen + Elems(r.out) && Distinct(r.out) && Elems(r.out) !! seen
            && (w in seen <==> r.out == [])
            && (w !in seen ==> r.out[0] == w)
    decreases |g.Keys - seen|, 0
  {
    if w !in seen {
      ProperSubsetCard(g.Keys - (seen + {w}), g.Keys - seen);
      assert NodeClosed(g, w);
      var rest := CollectAll(g, Successors(g, w), seen + {w});
      CollectAllOnce(g, Successors(g, w), seen + {w});
      assert Elems([w]) == {w};
      DistinctConcat([w], rest.out);
      assert Collect(g, w, seen) == Visit(rest.seen, [w] + rest.out);
    }
  }

  lemma {:induction false} CollectAllOnce(g: Graph, ws: seq<Id>, seen: set<Id>)
    requires Closed(g) && forall x :: x in ws ==> x in g
    ensures var r := CollectAll(g, ws, seen);
            r.seen == seen + Elems(r.out) && Distinct(r.out) && Elems(r.out) !! seen
    decreases |g.Keys - seen|, 1, |ws|
  {
    if ws != [] {
      var a := Collect(g, ws[0], seen);
      CollectOnce(g, ws[0], seen);
      SubsetCard(g.Keys - a.seen, g.Keys - seen);
      CollectAllOnce(g, ws[1..], a.seen);
      var b := CollectAll(g, ws[1..], a.seen);
      DistinctConcat(a.out, b.out);
      assert CollectAll(g, ws, seen) == Visit(b.seen, a.out + b.out);
    }
  }

  /** Every widget of `out` has all its successors in `seen`. */
  ghost predicate ClosedOut(g: Graph, out: seq<Id>, seen: set<Id>)
  {
    forall x, y :: x in out && y in Successors(g, x) ==> y in seen
  }

  lemma ClosedOutConcat(g: Graph, a: seq<Id>, b: seq<Id>, sa: set<Id>, sb: set<Id>)
    requires ClosedOut(g, a, sa) && ClosedOut(g, b, sb) && sa <= sb
    ensures ClosedOut(g, a + b, sb)
  {
    forall x, y | x in a + b && y in Successors(g, x) ensures y in sb {
      if x in a {
        assert y in sa;
      }
    }
  }

  /** Every collected widget has all its successors in the final seen set,
      and so does every widget of the list. */
  lemma {:induction false} CollectClosed(g: Graph, w: Id, seen: set<Id>)
    requires Closed(g) && w in g
    ensures w in Collect(g, w, seen).seen
    ensures ClosedOut(g, Collect(g, w, seen).out, Collect(g, w, seen).seen)
    decreases |g.Keys - seen|, 0
  {
    if w !in seen {
      ProperSubsetCard(g.Keys - (seen + {w}), g.Keys - seen);
      assert NodeClosed(g, w);
      var rest := CollectAll(g, Successors(g, w), seen + {w});
      CollectAllClosed(g, Successors(g, w), seen + {w});
      assert ClosedOut(g, [w], rest.seen) by {
        forall y | y in Successors(g, w) ensures y in rest.seen {
          assert RootsSeen(Successors(g, w), rest.seen);
        }
      }
      ClosedOutConcat(g, [w], rest.out, rest.seen, rest.seen);
      assert Collect(g, w, seen) == Visit(rest.seen, [w] + rest.out);
    }
  }

  ghost predicate RootsSeen(ws: seq<Id>, seen: set<Id>)
  {
    forall x :: x in ws ==> x in seen
  }

  lemma {:induction false} CollectAllClosed(g: Graph, ws: seq<Id>, seen: set<Id>)
    requires Closed(g) && forall x :: x in ws ==> x in g
    ensures RootsSeen(ws, CollectAll(g, ws, seen).seen)
    ensures ClosedOut(g, CollectAll(g, ws, seen).out, CollectAll(g, ws, seen).seen)
    decreases |g.Keys - seen|, 1, |ws|
  {
    if ws != [] {
      var a := Collect(g, ws[0], seen);
      CollectClosed(g, ws[0], seen);
      SubsetCard(g.Keys - a.seen, g.Keys - seen);
      CollectAllClosed(g, ws[1..], a.seen);
      var b := CollectAll(g, ws[1..], a.seen);
      assert CollectAll(g, ws, seen) == Visit(b.seen, a.out + b.out);
      assert a.seen <= b.seen;
      forall x | x in ws ensures x in b.seen {
        if x != ws[0] {
          assert x in ws[1..];
        }
      }
      ClosedOutConcat(g, a.out, b.out, a.seen, b.seen);
    }
  }

  /** A set holding the root and closed under successors holds everything
      collected: only widgets reachable from the root are collected. */
  lemma {:induction false} CollectWithin(g: Graph, w: Id, seen: set<Id>, s: set<Id>)
    requires Closed(g) && w in g && w in s
    requires forall x, y :: x in s && x in g && y in Successors(g, x) ==> y in s
    ensures Elems(Collect(g, w, seen).out) <= s
    decreases |g.Keys - seen|, 0
  {
    if w !in seen {
      ProperSubsetCard(g.Keys - (seen + {w}), g.Keys - seen);
      assert NodeClosed(g, w);
      CollectAllWithin(g, Successors(g, w), seen + {w}, s);
    }
  }

  lemma {:induction false} CollectAllWithin(g: Graph, ws: seq<Id>, seen: set<Id>, s: set<Id>)
    requires Closed(g) && forall x :: x in ws ==> x in g && x in s
    requires forall x, y :: x in s && x in g && y in Successors(g, x) ==> y in s
    ensures Elems(CollectAll(g, ws, seen).out) <= s
    decreases |g.Keys - seen|, 1, |ws|
  {
    if ws != [] {
      var a := Collect(g, ws[0], seen);
      CollectWithin(g, ws[0], seen, s);
      SubsetCard(g.Keys - a.seen, g.Keys - seen);
      CollectAllWithin(g, ws[1..], a.seen, s);
      var b := CollectAll(g, ws[1..], a.seen);
      assert Elems(a.out + b.out) == Elems(a.out) + Elems(b.out);
    }
  }

  /** The collection from a fresh seen set: the root comes first, no widget
      twice, the collected set is closed under children and layout widgets,
      and it lies inside every closed set holding the root, so it is exactly
      what is reachable from the root; a sibling is collected only if it is
      reachable from the root. */
  lemma CollectTree(g: Graph, root: Id, s: set<Id>)
    requires Closed(g) && root in g && root in s
    requires forall x, y :: x in s && x in g && y in Successors(g, x) ==> y in s
    ensures var out := Collect(g, root, {}).out;
            |out| > 0 && out[0] == root && Distinct(out)
            && (forall x, y :: x in out && y in Successors(g, x) ==> y in out)
            && Elems(out) <= s
  {
    CollectOnce(g, root, {});
    CollectClosed(g, root, {});
    CollectWithin(g, root, {}, s);
    var r := Collect(g, root, {});
    forall x, y | x in r.out && y in Successors(g, x) ensures y in r.out {
      assert y in r.seen;
      assert y in Elems(r.out);
    }
  }

  // ------------------------------------------------------------------
  // The collection, as the code runs it

  /** The recursion's state: the seen ids and the list appended to. */
  class Collector {
    const g: Graph
    var seen: set<Id>
    var out: seq<Id>

    constructor (graph: Graph)
      ensures g == graph && seen == {} && out == []
    {
      g := graph;
      seen := {};
      out := [];
    }

    /** `_collect_widgets` / `_collect_child_widgets`: a seen widget is
        skipped; otherwise it is marked seen and appended, then its widget
        children and after them the widgets of its layout are collected. */
    method CollectFrom(w: Id)
      requires Closed(g) && w in g
      modifies this
      ensures var r := Collect(g, w, old(seen));
              seen == r.seen && out == old(out) + r.out
      decreases |g.Keys - seen|, 0
    {
      if w in seen {
        return;
      }
      ghost var s0 := seen;
      ghost var o0 := out;
      seen := seen + {w};
      out := out + [w];
      ghost var s1 := seen;
      ProperSubsetCard(g.Keys - s1, g.Keys - s0);
      assert NodeClosed(g, w);
      ghost var ws := WidgetIds(g[w].children);
      ghost var ls := if g[w].layout.Some? then WidgetIds(g[w].layout.value) else [];
      assert Successors(g, w) == ws + ls;
      CollectItems(g[w].children);
      ghost var a := CollectAll(g, ws, s1);
      assert seen == a.seen && out == (o0 + [w]) + a.out;
      if g[w].layout.Some? {
        SubsetCard(g.Keys - seen, g.Keys - s1);
        CollectItems(g[w].layout.value);
      } else {
        assert ws + ls == ws;
      }
      ghost var b := CollectAll(g, ls, a.seen);
      assert seen == b.seen && out == ((o0 + [w]) + a.out) + b.out;
      CollectAllConcat(g, ws, ls, s1);
      ghost var rest := CollectAll(g, Successors(g, w), s1);
      assert rest == Visit(b.seen, a.out + b.out);
      assert Collect(g, w, s0) == Visit(rest.seen, [w] + rest.out);
      ConcatAssoc(o0 + [w], a.out, b.out);
      ConcatAssoc(o0, [w], a.out + b.out);
    }

    /** Collects the widgets of a child or layout-item list in order. */
    method CollectItems(items: seq<Option<Id>>)
      requires Closed(g) && forall x :: x in WidgetIds(items) ==> x in g
      modifies this
      ensures var r := CollectAll(g, WidgetIds(items), old(seen));
              seen == r.seen && out == old(out) + r.out
      decreases |g.Keys - seen|, 1
    {
      ghost var s0 := seen;
      ghost var o0 := out;
      var i := 0;
      while i < |items|
        invariant 0 <= i <= |items|
        invariant s0 <= seen
        invariant seen == CollectAll(g, WidgetIds(items[..i]), s0).seen
        invariant out == o0 + CollectAll(g, WidgetIds(items[..i]), s0).out
        decreases |items| - i
      {
        WidgetIdsSnoc(items, i);
        if items[i].Some? {
          var c := items[i].value;
          assert items[i] in items;
          ghost var pre := WidgetIds(items[..i]);
          assert WidgetIds(items[..i + 1]) == pre + [c];
          ghost var a := CollectAll(g, pre, s0);
          CollectAllConcat(g, pre, [c], s0);
          CollectAllOne(g, c, a.seen);
          SubsetCard(g.Keys - seen, g.Keys - s0);
          ghost var mid := out;
          CollectFrom(c);
          ghost var b := Collect(g, c, a.seen);
          assert seen == b.seen;
          assert out == mid + b.out;
          assert mid == o0 + a.out;
          ConcatAssoc(o0, a.out, b.out);
          assert CollectAll(g, pre + [c], s0) == Visit(b.seen, a.out + b.out);
        } else {
          assert WidgetIds(items[..i + 1]) == WidgetIds(items[..i]);
        }
        i := i + 1;
      }
      assert items[..i] == items;
    }
  }

  // ------------------------------------------------------------------
  // Restyling

  /** What the restyling does, in order. */
  datatype UiEvent =
    | SetAppSheet(sheet: string)
    | NoWindowPropagation(w: Id)
    | Unpolish(w: Id)
    | SetStyle(w: Id, style: nat)
    | InstallFilter(w: Id)

  /** Unpolish and restyle each widget, in order. */
  function Restyle(ws: seq<Id>, style: nat): (r: seq<UiEvent>)
    ensures |r| == 2 * |ws|
  {
    if ws == [] then [] else [Unpolish(ws[0]), SetStyle(ws[0], style)] + Restyle(ws[1..], style)
  }

  /** Each widget is unpolished and then given the style, one widget after
      the other in the given order. */
  lemma {:induction false} RestyleOrder(ws: seq<Id>, style: nat, k: nat)
    requires k < |ws|
    ensures Restyle(ws, style)[2 * k] == Unpolish(ws[k])
    ensures Restyle(ws, style)[2 * k + 1] == SetStyle(ws[k], style)
  {
    if k > 0 {
      RestyleOrder(ws[1..], style, k - 1);
    }
  }

  lemma RestyleSnoc(ws: seq<Id>, x: Id, style: nat)
    ensures Restyle(ws + [x], style) == Restyle(ws, style) + [Unpolish(x), SetStyle(x, style)]
  {
    if ws != [] {
      assert (ws + [x])[1..] == ws[1..] + [x];
    } else {
      assert ws + [x] == [x];
    }
  }

  /** No event of the list sets the application stylesheet. */
  lemma RestyleKeepsAppSheet(ws: seq<Id>, style: nat)
    ensures forall e :: e in Restyle(ws, style) ==> !e.SetAppSheet?
  {
  }

  /** The widgets without a `paintEvent` attribute, in order. */
  function WithoutPaintEvent(g: Graph, ws: seq<Id>): seq<Id>
  {
    if ws == [] then []
    else (if ws[0] in g && !g[ws[0]].hasPaintEvent then [ws[0]] else []) + WithoutPaintEvent(g, ws[1..])
  }

  /** The filter goes exactly on the listed widgets that lack `paintEvent`. */
  lemma {:induction false} WithoutPaintEventMembers(g: Graph, ws: seq<Id>, x: Id)
    ensures x in WithoutPaintEvent(g, ws) <==> x in ws && x in g && !g[x].hasPaintEvent
  {
    if ws != [] {
      WithoutPaintEventMembers(g, ws[1..], x);
      if x != ws[0] && x in ws {
        assert x in ws[1..];
      }
    }
  }

  /** Whether the restyling clears and restores the application stylesheet:
      only with `fixApp`, a `QApplication` and a non-empty stylesheet. */
  predicate SwapsSheet(sheet: Option<string>, fixApp: bool)
  {
    fixApp && sheet.Some? && sheet.value != ""
  }

  /** The events of one restyling, in order. */
  function StyleLog(sheet: Option<string>, fixApp: bool, widget: Id, ws: seq<Id>): (r: seq<UiEvent>)
    ensures |r| == 2 * |ws| + 1 + (if SwapsSheet(sheet, fixApp) then 2 else 0)
    ensures SwapsSheet(sheet, fixApp) ==> r[0] == SetAppSheet("") && r[|r| - 1] == SetAppSheet(sheet.value)
    ensures !SwapsSheet(sheet, fixApp) ==> forall e :: e in r ==> !e.SetAppSheet?
  {
    RestyleKeepsAppSheet(ws, 0);
    var swap := SwapsSheet(sheet, fixApp);
    (if swap then [SetAppSheet("")] else [])
    + [NoWindowPropagation(widget)]
    + Restyle(ws, 0)
    + (if swap then [SetAppSheet(sheet.value)] else [])
  }

  lemma StyleLogParts(log0: seq<UiEvent>, sheet: Option<string>, fixApp: bool, widget: Id, ws: seq<Id>)
    ensures var swap := SwapsSheet(sheet, fixApp);
            log0 + StyleLog(sheet, fixApp, widget, ws)
            == ((log0 + ((if swap then [SetAppSheet("")] else []) + [NoWindowPropagation(widget)])) + Restyle(ws, 0))
               + (if swap then [SetAppSheet(sheet.value)] else [])
  {
  }

  /** The application and the module-level style singleton. */
  class Ui {
    /** The stylesheet of the running `QApplication`; `None` when there is
        none. */
    var appSheet: Option<string>
    /** `_ayon_style_instance`, as the number of the style object. */
    var styleInstance: Option<nat>
    /** How many style objects were ever constructed. */
    var created: nat
    var log: seq<UiEvent>

    ghost predicate Valid()
      reads this
    {
      created <= 1 && (styleInstance.None? <==> created == 0)
      && (styleInstance.Some? ==> styleInstance.value == 0)
    }

    constructor (app: Option<string>)
      ensures Valid() && appSheet == app && styleInstance == None && created == 0 && log == []
    {
      appSheet := app;
      styleInstance := None;
      created := 0;
      log := [];
    }

    /** `get_ayon_style`: the style is constructed on the first call only,
        and every call returns that same instance. */
    method GetAyonStyle() returns (s: nat)
      requires Valid()
      modifies this
      ensures Valid() && styleInstance == Some(s) && created == 1
      ensures old(styleInstance).Some? ==> s == old(styleInstance).value && created == old(created)
      ensures appSheet == old(appSheet) && log == old(log)
    {
      if styleInstance.None? {
        styleInstance := Some(created);
        created := created + 1;
      }
      s := styleInstance.value;
    }

    /** The loop of `style_widget_and_siblings`: each collected widget is
        unpolished and given the style, in order. */
    method RestyleAll(ws: seq<Id>, style: nat)
      modifies this
      ensures log == old(log) + Restyle(ws, style)
      ensures appSheet == old(appSheet) && styleInstance == old(styleInstance) && created == old(created)
    {
      ghost var log0 := log;
      var i := 0;
      while i < |ws|
        invariant 0 <= i <= |ws|
        invariant log == log0 + Restyle(ws[..i], style)
        invariant appSheet == old(appSheet) && styleInstance == old(styleInstance) && created == old(created)
        decreases |ws| - i
      {
        RestyleSnoc(ws[..i], ws[i], style);
        assert ws[..i + 1] == ws[..i] + [ws[i]];
        ConcatAssoc(log0, Restyle(ws[..i], style), [Unpolish(ws[i]), SetStyle(ws[i], style)]);
        log := log + [Unpolish(ws[i]), SetStyle(ws[i], style)];
        i := i + 1;
      }
      assert ws[..i] == ws;
    }

    /** `style_widget_and_siblings`: collect from the widget alone, clear a
        non-empty application stylesheet when `fixApp` asks for it, restyle
        every collected widget with the singleton in collection order, and
        put the stylesheet back. */
    method StyleWidgetTree(g: Graph, widget: Id, fixApp: bool)
      requires Valid() && Closed(g) && widget in g
      modifies this
      ensures Valid() && created == 1 && styleInstance == Some(0)
      ensures appSheet == old(appSheet)
      ensures log == old(log) + StyleLog(old(appSheet), fixApp, widget, Collect(g, widget, {}).out)
    {
      var collector := new Collector(g);
      collector.CollectFrom(widget);
      var ws := collector.out;
      assert ws == Collect(g, widget, {}).out;
      var qss: Option<string> := None;
      if fixApp && appSheet.Some? {
        qss := appSheet;
      }
      var swap := fixApp && qss.Some? && qss.value != "";
      assert swap == SwapsSheet(old(appSheet), fixApp);
      ghost var log0 := log;
      if swap {
        appSheet := Some("");
        log := log + [SetAppSheet("")];
      }
      log := log + [NoWindowPropagation(widget)];
      ghost var log2 := log;
      assert log2 == log0 + ((if swap then [SetAppSheet("")] else []) + [NoWindowPropagation(widget)]);
      var style := GetAyonStyle();
      RestyleAll(ws, style);
      ghost var log3 := log;
      if swap {
        appSheet := qss;
        log := log + [SetAppSheet(qss.value)];
      }
      StyleLogParts(log0, old(appSheet), fixApp, widget, ws);
    }

    /** `install_event_filter`: the filter (whose construction fetches the
        style singleton) is installed on every collected widget that has no
        `paintEvent` attribute, in collection order. */
    method InstallEventFilter(g: Graph, obj: Id)
      requires Valid() && Closed(g) && obj in g
      modifies this
      ensures Valid() && appSheet == old(appSheet) && styleInstance == Some(0) && created == 1
      ensures old(styleInstance).Some? ==> styleInstance == old(styleInstance) && created == old(created)
      ensures log == old(log) + Installs(WithoutPaintEvent(g, Collect(g, obj, {}).out))
    {
      var collector := new Collector(g);
      collector.CollectFrom(obj);
      var children := collector.out;
      assert children == [] + Collect(g, obj, {}).out;
      CollectInGraph(g, obj);
      var _ := GetAyonStyle();
      assert log == old(log);
      InstallOn(g, children);
      assert children == Collect(g, obj, {}).out;
    }

    /** The loop of `install_event_filter` over the collected widgets. */
    method InstallOn(g: Graph, children: seq<Id>)
      requires forall x :: x in children ==> x in g
      modifies this
      ensures log == old(log) + Installs(WithoutPaintEvent(g, children))
      ensures appSheet == old(appSheet) && styleInstance == old(styleInstance) && created == old(created)
    {
      var i := 0;
      while i < |children|
        invariant 0 <= i <= |children|
        invariant log == old(log) + Installs(WithoutPaintEvent(g, children[..i]))
        invariant appSheet == old(appSheet) && styleInstance == old(styleInstance) && created == old(created)
        decreases |children| - i
      {
        ghost var pre := WithoutPaintEvent(g, children[..i]);
        var x := children[i];
        assert x in children;
        WithoutPaintEventSnoc(g, children[..i], x);
        assert children[..i + 1] == children[..i] + [x];
        if !g[x].hasPaintEvent {
          InstallsSnoc(pre, x);
          ConcatAssoc(old(log), Installs(pre), [InstallFilter(x)]);
          log := log + [InstallFilter(x)];
        } else {
          assert pre + [] == pre;
        }
        i := i + 1;
      }
      assert children[..i] == children;
    }
  }

  /** Every collected widget is a widget of the graph. */
  lemma CollectInGraph(g: Graph, w: Id)
    requires Closed(g) && w in g
    ensures forall x :: x in Collect(g, w, {}).out ==> x in g
  {
    forall x, y | x in g.Keys && x in g && y in Successors(g, x) ensures y in g.Keys {
      assert NodeClosed(g, x);
    }
    CollectWithin(g, w, {}, g.Keys);
  }

  function Installs(ws: seq<Id>): (r: seq<UiEvent>)
    ensures |r| == |ws|
  {
    if ws == [] then [] else [InstallFilter(ws[0])] + Installs(ws[1..])
  }

  lemma InstallsSnoc(ws: seq<Id>, x: Id)
    ensures Installs(ws + [x]) == Installs(ws) + [InstallFilter(x)]
  {
    if ws != [] {
      assert (ws + [x])[1..] == ws[1..] + [x];
    } else {
      assert ws + [x] == [x];
    }
  }

  lemma WithoutPaintEventSnoc(g: Graph, ws: seq<Id>, x: Id)
    requires x in g
    ensures WithoutPaintEvent(g, ws + [x]) == WithoutPaintEvent(g, ws) + (if !g[x].hasPaintEvent then [x] else [])
  {
    if ws != [] {
      assert (ws + [x])[1..] == ws[1..] + [x];
    } else {
      assert ws + [x] == [x];
    }
  }
}
