/** The older breadcrumb widget `AYEntityPath`: it keeps the path and its
    segments, but builds its labels once, as head, `"..."` and tail. */
module LegacyEntityPath {
  import opened Text

  /** A label with its `variant` property, or the trailing spacer. */
  datatype Item = Label(text: string, variant: string) | Spacer

  /** The segments of the path a new widget holds. */
  const InitialParts: seq<string> := ["Project", "assets", "characters", "robot", "Render"]

  /** The path a new widget holds, `"Project/assets/characters/robot/Render"`. */
  const InitialPath: string := Join(InitialParts, "/")

  /** `_build`: the first segment, `"/"`, `"..."`, `"/"`, the last segment
      and a spacer, however many segments there are. */
  function HeadTail(segs: seq<string>): seq<Item>
    requires segs != []
  {
    [Label(segs[0], "head"), Label("/", "head"), Label("...", "mid"), Label("/", "head"),
     Label(segs[|segs| - 1], "tail"), Spacer]
  }

  /** Only the first and the last segment matter: two paths that agree on
      them get the same labels, and a one-segment path shows that segment
      as both head and tail. */
  lemma HeadTailEnds(segs: seq<string>, segs': seq<string>)
    requires segs != [] && segs' != []
    requires segs[0] == segs'[0] && segs[|segs| - 1] == segs'[|segs'| - 1]
    ensures HeadTail(segs) == HeadTail(segs')
    ensures |segs| == 1 ==> HeadTail(segs)[0].text == HeadTail(segs)[4].text == segs[0]
  {
  }

  /** The initial path splits back into its segments. */
  lemma InitialSegments()
    ensures SplitOn(InitialPath, '/') == InitialParts
  {
    JoinSplit(InitialParts, '/');
  }

  class AYEntityPath {
    /** `_path`. */
    var path: string
    /** `_path_segments`: `path.split("/")`, not normalised. */
    var segments: seq<string>
    /** The labels built at construction. */
    var layout: seq<Item>

    /** Sets the initial path, then builds the labels once: the widget
        shows `Project / ... / Render`. */
    constructor ()
      ensures path == InitialPath && segments == SplitOn(InitialPath, '/')
      ensures layout == HeadTail(segments)
      ensures layout[0] == Label("Project", "head") && layout[4] == Label("Render", "tail")
    {
      path := "";
      segments := [];
      layout := [];
      new;
      SetEntityPath(InitialPath);
      layout := HeadTail(segments);
      InitialSegments();
    }

    /** The `entity_path` setter: stores the path and its segments; the
        labels already built stay as they are. */
    method SetEntityPath(value: string)
      modifies this
      ensures path == value && segments == SplitOn(value, '/')
      ensures layout == old(layout)
    {
      segments := SplitOn(value, '/');
      path := value;
    }
  }
}
