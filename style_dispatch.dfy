/** The registry and dispatch layer of the widget style: each drawer
    contributes a base class and tables of drawers, sizers and metrics keyed
    by `"<enum value name>-<widget key>"`; a widget's key is the first
    registered base class it inherits from; a request with no registered
    handler goes to the parent style. */
module StyleDispatch {
  import opened Wrappers
  import ODict

  /** A registered drawer: one handler, or a list of control elements, each
      drawn again through `drawControl`. */
  datatype Handler = Call(name: string) | Chain(elements: seq<string>)

  /** What one drawer object contributes; a table it does not define is
      `None`. Its base class is a name and the Qt class it stands for. */
  datatype Drawer = Drawer(
    baseClass: (string, string),
    drawers: Option<ODict.Dict<string, Handler>>,
    sizers: Option<ODict.Dict<string, string>>,
    metrics: Option<ODict.Dict<string, string>>)

  /** A widget as `widget_key` sees it: the Qt classes its type inherits
      from, its object name, and whether its parent is a widget without a
      layout. */
  datatype Widget = Widget(classes: set<string>, objectName: string, parentWithoutLayout: bool)

  /** `enum_to_str`: the enum value's name, a dash, the widget key. */
  function EnumKey(element: string, widget: string): string
  {
    element + "-" + widget
  }

  /** For one widget key, different elements give different keys. */
  lemma EnumKeyInjective(e1: string, e2: string, w: string)
    requires EnumKey(e1, w) == EnumKey(e2, w)
    ensures e1 == e2
  {
    assert |e1| == |e2|;
    assert e1 == EnumKey(e1, w)[..|e1|];
    assert e2 == EnumKey(e2, w)[..|e2|];
  }

  // ------------------------------------------------------------------
  // Registration

  /** The tables registered by `dict.update` over the drawers in order. */
  function RegisterAll<V>(tables: seq<Option<ODict.Dict<string, V>>>): ODict.Dict<string, V>
  {
    if tables == [] then []
    else
      var prev := RegisterAll(tables[..|tables| - 1]);
      var last := tables[|tables| - 1];
      if last.Some? then ODict.Update(prev, last.value) else prev
  }

  /** The value of `k` in the last table that defines it. */
  function LastDefinition<V>(tables: seq<Option<ODict.Dict<string, V>>>, k: string): Option<V>
  {
    if tables == [] then None
    else
      var last := tables[|tables| - 1];
      if last.Some? && ODict.HasKey(last.value, k) then ODict.Get(last.value, k)
      else LastDefinition(tables[..|tables| - 1], k)
  }

  /** Later registrations win: a key maps to the value of the last drawer
      that registers it, and to nothing if none does. */
  lemma {:induction false} LaterRegistrationWins<V>(tables: seq<Option<ODict.Dict<string, V>>>, k: string)
    requires forall i :: 0 <= i < |tables| && tables[i].Some? ==> ODict.Valid(tables[i].value)
    ensures ODict.Get(RegisterAll(tables), k) == LastDefinition(tables, k)
    decreases |tables|
  {
    if tables != [] {
      var init := tables[..|tables| - 1];
      LaterRegistrationWins(init, k);
      var last := tables[|tables| - 1];
      if last.Some? {
        ODict.UpdateGet(RegisterAll(init), last.value, k);
      }
    }
  }

  function BaseTables(objs: seq<Drawer>): seq<Option<ODict.Dict<string, string>>>
  {
    seq(|objs|, i requires 0 <= i < |objs| => Some([objs[i].baseClass]))
  }

  function DrawerTables(objs: seq<Drawer>): seq<Option<ODict.Dict<string, Handler>>>
  {
    seq(|objs|, i requires 0 <= i < |objs| => objs[i].drawers)
  }

  function SizerTables(objs: seq<Drawer>): seq<Option<ODict.Dict<string, string>>>
  {
    seq(|objs|, i requires 0 <= i < |objs| => objs[i].sizers)
  }

  function MetricTables(objs: seq<Drawer>): seq<Option<ODict.Dict<string, string>>>
  {
    seq(|objs|, i requires 0 <= i < |objs| => objs[i].metrics)
  }

  /** The base classes in registration order. */
  function BaseClassesOf(objs: seq<Drawer>): ODict.Dict<string, string>
  {
    RegisterAll(BaseTables(objs))
  }

  lemma PrefixTables(objs: seq<Drawer>, i: nat)
    requires i < |objs|
    ensures BaseTables(objs[..i + 1])[..i] == BaseTables(objs[..i])
    ensures DrawerTables(objs[..i + 1])[..i] == DrawerTables(objs[..i])
    ensures SizerTables(objs[..i + 1])[..i] == SizerTables(objs[..i])
    ensures MetricTables(objs[..i + 1])[..i] == MetricTables(objs[..i])
  {
  }

  /** The drawers' base classes, one per drawer, in order. */
  function BaseList(objs: seq<Drawer>): (r: ODict.Dict<string, string>)
    ensures |r| == |objs| && forall i :: 0 <= i < |objs| ==> r[i] == objs[i].baseClass
  {
    if objs == [] then [] else BaseList(objs[..|objs| - 1]) + [objs[|objs| - 1].baseClass]
  }

  /** The base classes of distinct names are listed in drawer order. */
  lemma {:induction false} BaseOrder(objs: seq<Drawer>)
    requires forall i, j :: 0 <= i < j < |objs| ==> objs[i].baseClass.0 != objs[j].baseClass.0
    ensures BaseClassesOf(objs) == BaseList(objs)
  {
    if objs != [] {
      var n := |objs| - 1;
      var b := objs[n].baseClass;
      PrefixTables(objs, n);
      assert objs[..n + 1] == objs;
      BaseOrder(objs[..n]);
      var prev := BaseClassesOf(objs[..n]);
      assert BaseTables(objs)[n] == Some([b]);
      assert BaseClassesOf(objs) == ODict.Update(prev, [b]);
      assert [b][1..] == [];
      assert ODict.Update(prev, [b]) == ODict.Set(prev, b.0, b.1);
      assert !ODict.HasKey(prev, b.0) by {
        forall j | 0 <= j < |prev| ensures prev[j].0 != b.0 {
          assert prev[j] == objs[j].baseClass;
        }
      }
    }
  }

  // ------------------------------------------------------------------
  // Widget key

  /** The first base class, from position `i` on, that the widget inherits. */
  function FirstBase(bases: ODict.Dict<string, string>, classes: set<string>, i: nat): (r: Option<nat>)
    requires i <= |bases|
    ensures r.Some? ==> i <= r.value < |bases| && bases[r.value].1 in classes
                        && forall j :: i <= j < r.value ==> bases[j].1 !in classes
    ensures r.None? ==> forall j :: i <= j < |bases| ==> bases[j].1 !in classes
    decreases |bases| - i
  {
    if i == |bases| then None
    else if bases[i].1 in classes then Some(i)
    else FirstBase(bases, classes, i + 1)
  }

  /** The newer `widget_key`: the name of the first matching base class,
      except that a widget named `"qtooltip_label"`, or a label whose parent
      is a widget without a layout, is a tooltip. */
  function ClientKey(bases: ODict.Dict<string, string>, w: Option<Widget>): string
  {
    if w.None? then ""
    else
      match FirstBase(bases, w.value.classes, 0)
      case None => ""
      case Some(i) =>
        if w.value.objectName == "qtooltip_label" then "QToolTip"
        else if "QLabel" in w.value.classes && w.value.parentWithoutLayout then "QToolTip"
        else bases[i].0
  }

  /** The older `widget_key`: the name of the first matching base class. */
  function LegacyKey(bases: ODict.Dict<string, string>, w: Option<Widget>): string
  {
    if w.None? then ""
    else
      match FirstBase(bases, w.value.classes, 0)
      case None => ""
      case Some(i) => bases[i].0
  }

  /** No match gives `""`; otherwise the key is the first match's name, or
      `"QToolTip"` under the tooltip rule; the older key is always the first
      match's name. */
  lemma WidgetKeyRule(bases: ODict.Dict<string, string>, w: Widget, i: nat)
    requires i < |bases| && bases[i].1 in w.classes
    requires forall j :: 0 <= j < i ==> bases[j].1 !in w.classes
    ensures LegacyKey(bases, Some(w)) == bases[i].0
    ensures ClientKey(bases, Some(w))
            == if w.objectName == "qtooltip_label" || ("QLabel" in w.classes && w.parentWithoutLayout)
               then "QToolTip" else bases[i].0
  {
  }

  lemma NoMatchKey(bases: ODict.Dict<string, string>, w: Widget)
    requires forall j :: 0 <= j < |bases| ==> bases[j].1 !in w.classes
    ensures ClientKey(bases, Some(w)) == "" && LegacyKey(bases, Some(w)) == ""
  {
  }

  /** The older `widget_key`, the loop over its base classes. */
  method LegacyWidgetKey(bases: ODict.Dict<string, string>, w: Option<Widget>) returns (r: string)
    ensures r == LegacyKey(bases, w)
  {
    if w.None? {
      return "";
    }
    var i := 0;
    while i < |bases|
      invariant 0 <= i <= |bases|
      invariant FirstBase(bases, w.value.classes, 0) == FirstBase(bases, w.value.classes, i)
      decreases |bases| - i
    {
      if bases[i].1 in w.value.classes {
        return bases[i].0;
      }
      i := i + 1;
    }
    return "";
  }

  /** The older style's base classes: labels before frames. */
  const LegacyBases: ODict.Dict<string, string> :=
    [("QLabel", "QLabel"), ("QPushButton", "QPushButton"), ("QCheckBox", "QCheckBox"),
     ("QComboBox", "QComboBox"), ("QFrame", "QFrame")]

  /** The newer style's base classes, in drawer order. */
  const ClientBases: ODict.Dict<string, string> :=
    [("QToolTip", "QToolTip"), ("QLabel", "QLabel"), ("QPushButton", "QPushButton"),
     ("QCheckBox", "QCheckBox"), ("QComboBox", "QComboBox"), ("QScrollBar", "QScrollBar"),
     ("QFrame", "QFrame")]

  /** A label, which is also a frame, is keyed as a label; a plain frame as
      a frame. */
  lemma LabelsBeforeFrames(w: Widget)
    requires "QLabel" in w.classes && "QFrame" in w.classes
    ensures LegacyKey(LegacyBases, Some(w)) == "QLabel"
    ensures LegacyKey(LegacyBases, Some(Widget({"QFrame"}, w.objectName, w.parentWithoutLayout))) == "QFrame"
  {
    WidgetKeyRule(LegacyBases, w, 0);
    var f := Widget({"QFrame"}, w.objectName, w.parentWithoutLayout);
    WidgetKeyRule(LegacyBases, f, 4);
  }

  /** In the newer style a label under a layout-less parent widget is drawn
      as a tooltip, and one under a laid-out parent as a label. */
  lemma LabelTooltipRule(w: Widget)
    requires w.classes == {"QLabel", "QFrame"} && w.objectName != "qtooltip_label"
    ensures ClientKey(ClientBases, Some(w)) == if w.parentWithoutLayout then "QToolTip" else "QLabel"
  {
    WidgetKeyRule(ClientBases, w, 1);
  }

  // ------------------------------------------------------------------
  // Dispatch

  /** What a draw request does: the parent style draws, or a handler runs. */
  datatype Action = ParentDraw(element: string) | Run(handler: string)

  /** A sizer or metric request: the parent style answers, or a handler. */
  datatype Route = Parent | Handled(handler: string)

  /** The style object with its registry. */
  class AyonStyle {
    var baseClasses: ODict.Dict<string, string>
    var drawers: ODict.Dict<string, Handler>
    var sizers: ODict.Dict<string, string>
    var metrics: ODict.Dict<string, string>

    /** `AYONStyle.__init__`: every drawer's base class and tables are
        merged in, in order. */
    constructor (objs: seq<Drawer>)
      ensures baseClasses == BaseClassesOf(objs)
      ensures drawers == RegisterAll(DrawerTables(objs))
      ensures sizers == RegisterAll(SizerTables(objs))
      ensures metrics == RegisterAll(MetricTables(objs))
    {
      var b: ODict.Dict<string, string> := [];
      var d: ODict.Dict<string, Handler> := [];
      var s: ODict.Dict<string, string> := [];
      var m: ODict.Dict<string, string> := [];
      var i := 0;
      while i < |objs|
        invariant 0 <= i <= |objs|
        invariant b == BaseClassesOf(objs[..i])
        invariant d == RegisterAll(DrawerTables(objs[..i]))
        invariant s == RegisterAll(SizerTables(objs[..i]))
        invariant m == RegisterAll(MetricTables(objs[..i]))
        decreases |objs| - i
      {
        PrefixTables(objs, i);
        var obj := objs[i];
        b := ODict.Update(b, [obj.baseClass]);
        if obj.drawers.Some? {
          d := ODict.Update(d, obj.drawers.value);
        }
        if obj.sizers.Some? {
          s := ODict.Update(s, obj.sizers.value);
        }
        if obj.metrics.Some? {
          m := ODict.Update(m, obj.metrics.value);
        }
        i := i + 1;
      }
      assert objs[..i] == objs;
      baseClasses := b;
      drawers := d;
      sizers := s;
      metrics := m;
    }

    /** `widget_key`, the loop over the base classes in order. */
    method WidgetKey(w: Option<Widget>) returns (r: string)
      ensures r == ClientKey(baseClasses, w)
    {
      if w.None? {
        return "";
      }
      var i := 0;
      while i < |baseClasses|
        invariant 0 <= i <= |baseClasses|
        invariant FirstBase(baseClasses, w.value.classes, 0) == FirstBase(baseClasses, w.value.classes, i)
        decreases |baseClasses| - i
      {
        if baseClasses[i].1 in w.value.classes {
          if w.value.objectName == "qtooltip_label" {
            return "QToolTip";
          }
          if "QLabel" in w.value.classes && w.value.parentWithoutLayout {
            return "QToolTip";
          }
          return baseClasses[i].0;
        }
        i := i + 1;
      }
      return "";
    }

    /** `drawControl` for a widget of key `wk`: no drawer means the parent
        style draws; a list re-dispatches each of its elements in order.
        `fuel` bounds that re-dispatch. */
    function DrawControl(element: string, wk: string, fuel: nat): (r: seq<Action>)
      reads this
      ensures ODict.Get(drawers, EnumKey(element, wk)).None? ==> r == [ParentDraw(element)]
      ensures ODict.Get(drawers, EnumKey(element, wk)).Some? && ODict.Get(drawers, EnumKey(element, wk)).value.Call?
              ==> r == [Run(ODict.Get(drawers, EnumKey(element, wk)).value.name)]
      decreases fuel, 0
    {
      var h: Option<Handler> := ODict.Get(drawers, EnumKey(element, wk));
      if h.None? then [ParentDraw(element)]
      else if h.value.Call? then [Run(h.value.name)]
      else if fuel == 0 then []
      else DrawChain(h.value.elements, wk, fuel - 1)
    }

    function DrawChain(els: seq<string>, wk: string, fuel: nat): (r: seq<Action>)
      reads this
      decreases fuel, 1, |els|
    {
      if els == [] then [] else DrawControl(els[0], wk, fuel) + DrawChain(els[1..], wk, fuel)
    }

    /** `pixelMetric`, `subElementRect`, `drawPrimitive` and the other
        single-handler lookups: the registered handler, else the parent. */
    function Lookup(table: ODict.Dict<string, string>, element: string, wk: string): (r: Route)
      ensures r.Parent? <==> !ODict.HasKey(table, EnumKey(element, wk))
      ensures r.Handled? ==> ODict.Get(table, EnumKey(element, wk)) == Some(r.handler)
    {
      match ODict.Get(table, EnumKey(element, wk))
      case None => Parent
      case Some(h) => Handled(h)
    }
  }

  /** The push-button drawer's control table: the whole button is the bevel
      then the label. */
  const ButtonDrawers: ODict.Dict<string, Handler> :=
    [("CE_PushButton-QPushButton", Chain(["CE_PushButtonBevel", "CE_PushButtonLabel"])),
     ("CE_PushButtonBevel-QPushButton", Call("draw_push_button_bevel")),
     ("CE_PushButtonLabel-QPushButton", Call("draw_push_button_label"))]

  /** Drawing a push button runs the bevel drawer and then the label
      drawer; the same element on an unregistered widget key goes to the
      parent style. */
  lemma PushButtonDrawOrder(s: AyonStyle)
    requires s.drawers == ButtonDrawers
    ensures s.DrawControl("CE_PushButton", "QPushButton", 1)
            == [Run("draw_push_button_bevel"), Run("draw_push_button_label")]
    ensures s.DrawControl("CE_PushButton", "", 1) == [ParentDraw("CE_PushButton")]
  {
    assert EnumKey("CE_PushButton", "QPushButton") == "CE_PushButton-QPushButton";
    assert EnumKey("CE_PushButtonBevel", "QPushButton") == "CE_PushButtonBevel-QPushButton";
    assert EnumKey("CE_PushButtonLabel", "QPushButton") == "CE_PushButtonLabel-QPushButton";
    assert ODict.Get(ButtonDrawers, "CE_PushButton-QPushButton") == Some(Chain(["CE_PushButtonBevel", "CE_PushButtonLabel"]));
    assert ODict.Get(ButtonDrawers, "CE_PushButtonBevel-QPushButton") == Some(Call("draw_push_button_bevel"));
    assert ODict.Get(ButtonDrawers, "CE_PushButtonLabel-QPushButton") == Some(Call("draw_push_button_label"));
    var els := ["CE_PushButtonBevel", "CE_PushButtonLabel"];
    assert s.DrawChain(els, "QPushButton", 0)
           == s.DrawControl(els[0], "QPushButton", 0) + s.DrawChain(els[1..], "QPushButton", 0);
    assert s.DrawChain(els[1..], "QPushButton", 0)
           == s.DrawControl(els[1], "QPushButton", 0) + s.DrawChain([], "QPushButton", 0);
    assert EnumKey("CE_PushButton", "") == "CE_PushButton-";
    assert ODict.Get(ButtonDrawers, "CE_PushButton-") == None;
  }

  /** `sizeFromContents`: the registered sizer, else the parent style when
      there is an option, else a 100x32 default. */
  datatype SizeRoute = Sizer(name: string) | ParentSize | DefaultSize(width: int, height: int)

  function SizeFromContents(sizers: ODict.Dict<string, string>, contents: string, wk: string, hasOption: bool): (r: SizeRoute)
    ensures ODict.HasKey(sizers, EnumKey(contents, wk)) ==> r.Sizer? && ODict.Get(sizers, EnumKey(contents, wk)) == Some(r.name)
    ensures !ODict.HasKey(sizers, EnumKey(contents, wk)) ==> r == (if hasOption then ParentSize else DefaultSize(100, 32))
  {
    match ODict.Get(sizers, EnumKey(contents, wk))
    case Some(h) => Sizer(h)
    case None => if hasOption then ParentSize else DefaultSize(100, 32)
  }

  /** `subControlRect`: a sizer that raises `ValueError` also falls back to
      the parent style. */
  function SubControlRect(sizers: ODict.Dict<string, string>, cc: string, wk: string, raises: string -> bool): (r: Route)
    ensures r.Handled? ==> ODict.Get(sizers, EnumKey(cc, wk)) == Some(r.handler) && !raises(r.handler)
    ensures r.Parent? ==> !ODict.HasKey(sizers, EnumKey(cc, wk)) || raises(ODict.Get(sizers, EnumKey(cc, wk)).value)
  {
    match ODict.Get(sizers, EnumKey(cc, wk))
    case None => Parent
    case Some(h) => if raises(h) then Parent else Handled(h)
  }
}
