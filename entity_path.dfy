/** The breadcrumb widget `AYEntityPath`: the path it was given, split into
    segments, shown as one label per segment with `"/"` labels between them
    and a stretch at the end. `os.path.normpath` is a given function. */
module EntityPath {
  import opened Text

  /** What the widget's layout holds: a segment label with its `variant`
      property, or the trailing stretch. */
  datatype Item = Label(text: string, variant: string) | Stretch(factor: nat)

  /** The path a new widget shows. */
  const InitialPath: string := "Project/assets/characters/robot/Render"

  /** The `"/"` label; like every segment label, its variant is `"head"`. */
  const Separator: Item := Label("/", "head")

  /** The labels `_build` adds for `segs`: each segment, followed by a
      separator when its text differs from the text of the last segment. */
  function SegmentItems(segs: seq<string>, last: string): seq<Item>
  {
    if segs == [] then []
    else
      var n := |segs| - 1;
      SegmentItems(segs[..n], last) + SegmentLabels(segs[n], last)
  }

  /** The labels for one segment: itself, then a separator when its text
      differs from `last`. */
  function SegmentLabels(seg: string, last: string): seq<Item>
  {
    [Label(seg, "head")] + if seg != last then [Separator] else []
  }

  /** The whole layout after `_build`. */
  function Layout(segs: seq<string>): seq<Item>
    requires segs != []
  {
    SegmentItems(segs, segs[|segs| - 1]) + [Stretch(100)]
  }

  /** The texts of the labels that are not separators, in order. */
  function SegmentTexts(items: seq<Item>): seq<string>
  {
    if items == [] then []
    else
      var n := |items| - 1;
      SegmentTexts(items[..n]) + if items[n].Label? && items[n] != Separator then [items[n].text] else []
  }

  /** How many separators a list of items holds. */
  function SeparatorCount(items: seq<Item>): nat
  {
    if items == [] then 0
    else SeparatorCount(items[..|items| - 1]) + if items[|items| - 1] == Separator then 1 else 0
  }

  /** How many segments differ from `last`. */
  function DifferCount(segs: seq<string>, last: string): nat
  {
    if segs == [] then 0
    else DifferCount(segs[..|segs| - 1], last) + if segs[|segs| - 1] != last then 1 else 0
  }

  lemma {:induction false} ItemsConcat(a: seq<Item>, b: seq<Item>)
    ensures SegmentTexts(a + b) == SegmentTexts(a) + SegmentTexts(b)
    ensures SeparatorCount(a + b) == SeparatorCount(a) + SeparatorCount(b)
    decreases |b|
  {
    if b == [] {
      assert a + b == a;
    } else {
      var n := |b| - 1;
      assert (a + b)[..|a + b| - 1] == a + b[..n];
      ItemsConcat(a, b[..n]);
    }
  }

  /** No segment is the separator's text. */
  predicate NoSlash(segs: seq<string>)
  {
    forall i :: 0 <= i < |segs| ==> segs[i] != "/"
  }

  /** One segment's labels show that segment, with one separator when it
      differs from `last`. */
  lemma SegmentLabelsSpec(seg: string, last: string)
    requires seg != "/"
    ensures SegmentTexts(SegmentLabels(seg, last)) == [seg]
    ensures SeparatorCount(SegmentLabels(seg, last)) == if seg != last then 1 else 0
  {
    var one := [Label(seg, "head")];
    assert one[..0] == [] && one[0] != Separator;
    assert SegmentTexts(one) == [seg] && SeparatorCount(one) == 0;
    var two := SegmentLabels(seg, last);
    if seg != last {
      assert two == one + [Separator] && two[..1] == one;
    } else {
      assert two == one;
    }
  }

  /** The layout shows every segment once, in order, and one separator per
      segment whose text differs from the last segment's; it ends with the
      stretch. */
  lemma {:induction false} SegmentItemsSpec(segs: seq<string>, last: string)
    requires NoSlash(segs)
    ensures SegmentTexts(SegmentItems(segs, last)) == segs
    ensures SeparatorCount(SegmentItems(segs, last)) == DifferCount(segs, last)
    decreases |segs|
  {
    if segs != [] {
      var n := |segs| - 1;
      var init := segs[..n];
      assert NoSlash(init) by {
        assert forall i :: 0 <= i < n ==> init[i] == segs[i];
      }
      SegmentItemsSpec(init, last);
      var labels := SegmentLabels(segs[n], last);
      assert SegmentItems(segs, last) == SegmentItems(init, last) + labels;
      ItemsConcat(SegmentItems(init, last), labels);
      SegmentLabelsSpec(segs[n], last);
      assert init + [segs[n]] == segs;
    }
  }

  lemma LayoutSpec(segs: seq<string>)
    requires segs != [] && NoSlash(segs)
    ensures SegmentTexts(Layout(segs)) == segs
    ensures SeparatorCount(Layout(segs)) == DifferCount(segs, segs[|segs| - 1])
    ensures Layout(segs)[|Layout(segs)| - 1] == Stretch(100)
  {
    SegmentItemsSpec(segs, segs[|segs| - 1]);
    ItemsConcat(SegmentItems(segs, segs[|segs| - 1]), [Stretch(100)]);
  }

  /** The segments differing from the last one are all but the last exactly
      when no earlier segment repeats the last one's text. */
  lemma {:induction false} DifferCountSpec(segs: seq<string>, last: string)
    ensures DifferCount(segs, last) <= |segs|
    ensures DifferCount(segs, last) == |segs| <==> forall i :: 0 <= i < |segs| ==> segs[i] != last
    decreases |segs|
  {
    if segs != [] {
      var n := |segs| - 1;
      DifferCountSpec(segs[..n], last);
      if segs[n] != last && DifferCount(segs[..n], last) == n {
        forall i | 0 <= i < |segs| ensures segs[i] != last {
          if i < n {
            assert segs[..n][i] == segs[i];
          }
        }
      }
      if forall i :: 0 <= i < |segs| ==> segs[i] != last {
        assert forall i :: 0 <= i < n ==> segs[..n][i] == segs[i];
      }
    }
  }

  /** A path has a separator between every two neighbouring segments
      exactly when no earlier segment has the last segment's text. */
  lemma SeparatorsBetweenAll(segs: seq<string>)
    requires segs != [] && NoSlash(segs)
    ensures SeparatorCount(Layout(segs)) == |segs| - 1 <==>
              forall i :: 0 <= i < |segs| - 1 ==> segs[i] != segs[|segs| - 1]
  {
    var n := |segs| - 1;
    LayoutSpec(segs);
    DifferCountSpec(segs[..n], segs[n]);
    assert segs == segs[..n] + [segs[n]];
    assert DifferCount(segs, segs[n]) == DifferCount(segs[..n], segs[n]);
    assert forall i :: 0 <= i < n ==> segs[..n][i] == segs[i];
  }

  /** The layout meant: a separator after every segment but the last. */
  function LayoutByPosition(segs: seq<string>): seq<Item>
    requires segs != []
  {
    if |segs| == 1 then [Label(segs[0], "head"), Stretch(100)]
    else [Label(segs[0], "head"), Separator] + LayoutByPosition(segs[1..])
  }

  /** Segment labels and separators alternate, so there are exactly
      `|segs| - 1` separators. */
  lemma {:induction false} LayoutByPositionSpec(segs: seq<string>)
    requires segs != []
    ensures |LayoutByPosition(segs)| == 2 * |segs|
    ensures forall i :: 0 <= i < |segs| ==> LayoutByPosition(segs)[2 * i] == Label(segs[i], "head")
    ensures forall i :: 0 <= i < |segs| - 1 ==> LayoutByPosition(segs)[2 * i + 1] == Separator
    ensures LayoutByPosition(segs)[2 * |segs| - 1] == Stretch(100)
    decreases |segs|
  {
    if |segs| > 1 {
      LayoutByPositionSpec(segs[1..]);
      var r := LayoutByPosition(segs);
      var t := LayoutByPosition(segs[1..]);
      assert r == [Label(segs[0], "head"), Separator] + t;
      forall i | 0 < i < |segs| ensures r[2 * i] == Label(segs[i], "head") {
        assert r[2 * i] == t[2 * (i - 1)];
        assert segs[1..][i - 1] == segs[i];
      }
      forall i | 0 < i < |segs| - 1 ensures r[2 * i + 1] == Separator {
        assert r[2 * i + 1] == t[2 * (i - 1) + 1];
      }
    }
  }

  /** The path `"a/b/a"` has the segments `a`, `b`, `a`. */
  lemma RepeatedLastSplit(path: string)
    requires path == "a/b/a"
    ensures SplitOn(path, '/') == ["a", "b", "a"]
  {
    var segs := ["a", "b", "a"];
    assert Join(segs[2..], "/") == "a";
    assert Join(segs[1..], "/") == "b/a";
    assert Join(segs, "/") == path;
    JoinSplit(segs, '/');
  }

  /** For the segments `a`, `b`, `a` the widget shows `a`, `b`, `/`, `a`:
      no separator follows the first `a`, whose text equals the last
      segment's, where `a`, `/`, `b`, `/`, `a` is meant. */
  lemma RepeatedLastSegment(segs: seq<string>)
    requires segs == ["a", "b", "a"]
    ensures Layout(segs) == [Label("a", "head"), Label("b", "head"), Separator, Label("a", "head"), Stretch(100)]
    ensures LayoutByPosition(segs) ==
              [Label("a", "head"), Separator, Label("b", "head"), Separator, Label("a", "head"), Stretch(100)]
  {
    var ab := segs[..2];
    var a := ab[..1];
    assert ab == ["a", "b"] && a == ["a"] && a[..0] == [];
    assert SegmentItems(a, "a") == [Label("a", "head")];
    assert SegmentItems(ab, "a") == [Label("a", "head"), Label("b", "head"), Separator];
    assert SegmentItems(segs, "a") == [Label("a", "head"), Label("b", "head"), Separator, Label("a", "head")];
    assert segs[1..] == ["b", "a"] && segs[1..][1..] == ["a"];
    assert LayoutByPosition(segs[1..][1..]) == [Label("a", "head"), Stretch(100)];
    assert LayoutByPosition(segs[1..]) == [Label("b", "head"), Separator, Label("a", "head"), Stretch(100)];
  }

  class AYEntityPath {
    /** `os.path.normpath`. */
    const normpath: string -> string
    /** `_path`: the value last set. */
    var path: string
    /** `_path_segments`. */
    var segments: seq<string>
    /** The labels and the stretch of the widget's layout. */
    var layout: seq<Item>

    /** A new widget shows the initial path. */
    constructor (normpath: string -> string)
      ensures this.normpath == normpath
      ensures path == InitialPath && segments == SplitOn(normpath(InitialPath), '/')
      ensures layout == Layout(segments)
    {
      this.normpath := normpath;
      path := "";
      segments := [];
      layout := [];
      new;
      SetEntityPath(InitialPath);
    }

    /** The `entity_path` setter: the getter then returns `value` as given,
        while the segments come from the normalised path. */
    method SetEntityPath(value: string)
      modifies this
      ensures path == value && segments == SplitOn(normpath(value), '/')
      ensures layout == Layout(segments)
    {
      segments := SplitOn(normpath(value), '/');
      path := value;
      Build();
    }

    /** `_build`: clears the layout and refills it. */
    method Build()
      requires segments != []
      modifies this
      ensures path == old(path) && segments == old(segments)
      ensures layout == Layout(segments)
    {
      var last := segments[|segments| - 1];
      var items: seq<Item> := [];
      for i := 0 to |segments|
        invariant items == SegmentItems(segments[..i], last)
      {
        assert segments[..i + 1][..i] == segments[..i];
        items := items + [Label(segments[i], "head")];
        if segments[i] != last {
          items := items + [Separator];
        }
      }
      assert segments[..|segments|] == segments;
      layout := items + [Stretch(100)];
    }
  }

  /** Whatever path is set, the widget shows each of its normalised
      segments once, in order. */
  lemma ShownSegments(normpath: string -> string, value: string)
    ensures var segs := SplitOn(normpath(value), '/');
      SegmentTexts(Layout(segs)) == segs
  {
    var segs := SplitOn(normpath(value), '/');
    assert NoSlash(segs) by {
      forall i | 0 <= i < |segs| ensures segs[i] != "/" {
        assert '/' !in segs[i];
      }
    }
    LayoutSpec(segs);
  }
}
