/** The avatar widget `AYUserImage`: a round picture of the user, either an
    image file scaled into the circle or the user's initials on a coloured
    disc, with an optional outline. Whether a path exists on disk, whether
    Qt can load it and what the image cache answers for a key are given
    functions. */
module UserImage {
  import opened Wrappers
  import opened Text

  /** The outline colours: green when highlighted, light grey otherwise. */
  datatype OutlineColor = Green | Grey

  /** What is painted inside the circle. */
  datatype Content =
    | Photo(path: string, side: int)       // the image, scaled to `side` x `side`
    | Unloadable(path: string)             // a source Qt cannot load: nothing is drawn
    | Badge(text: string, pointSize: int)  // initials on the background disc

  /** The finished pixmap: its size, what it shows and the outline drawn
      over it, if any. */
  datatype Picture = Picture(size: int, content: Content, outline: Option<OutlineColor>)

  /** The first character of every word. */
  function FirstChars(words: seq<string>): (r: string)
    requires forall i :: 0 <= i < |words| ==> words[i] != []
    ensures |r| == |words|
    ensures forall i :: 0 <= i < |words| ==> r[i] == words[i][0]
  {
    if words == [] then [] else [words[0][0]] + FirstChars(words[1..])
  }

  /** The initials: the first letter of each word of the full name; without
      a full name, the first letter of the short name; without either,
      `"?"`. */
  function Initials(fullName: string, name: string): (r: string)
    ensures fullName != [] ==> |r| == |SplitWs(fullName)| && forall i :: 0 <= i < |r| ==> !IsSpace(r[i])
    ensures fullName != [] && (forall i :: 0 <= i < |fullName| ==> IsSpace(fullName[i])) ==> r == []
    ensures fullName == [] && name != [] ==> r == [name[0]]
    ensures fullName == [] && name == [] ==> r == "?"
  {
    if fullName != [] then
      var words := SplitWs(fullName);
      assert forall i :: 0 <= i < |words| ==> words[i] in words;
      FirstChars(words)
    else if name != [] then [name[0]]
    else "?"
  }

  /** Non-empty words without whitespace. */
  predicate Words(words: seq<string>)
  {
    forall i :: 0 <= i < |words| ==> words[i] != [] && NoSpace(words[i])
  }

  lemma WordsTail(words: seq<string>)
    requires words != [] && Words(words)
    ensures Words(words[1..]) && words[0] != [] && NoSpace(words[0])
  {
    assert forall i :: 0 <= i < |words| - 1 ==> words[1..][i] == words[i + 1];
  }

  /** Two or more words joined by spaces: the first, a space, the rest. */
  lemma JoinCons(words: seq<string>)
    requires |words| > 1
    ensures Join(words, " ") == words[0] + ([' '] + Join(words[1..], " "))
  {
  }

  /** Words joined by single spaces split back into those words. */
  lemma {:induction false} SplitWsJoin(words: seq<string>)
    requires Words(words)
    ensures SplitWs(Join(words, " ")) == words
    decreases |words|
  {
    if words == [] {
    } else if |words| == 1 {
      WordsTail(words);
      SplitWsWord(words[0], []);
      assert words[0] + [] == words[0];
    } else {
      var rest := Join(words[1..], " ");
      WordsTail(words);
      SplitWsJoin(words[1..]);
      SplitWsSpace(' ', rest);
      SplitWsWord(words[0], [' '] + rest);
      JoinCons(words);
      assert [words[0]] + words[1..] == words;
    }
  }

  /** A full name written as words separated by single spaces has one
      initial per word, in order. */
  lemma InitialsOfWords(words: seq<string>, name: string)
    requires words != [] && Words(words)
    ensures Initials(Join(words, " "), name) == FirstChars(words)
  {
    SplitWsJoin(words);
    assert words[0] != [];
    assert Join(words, " ") != [] by {
      if |words| > 1 {
        assert Join(words, " ") == words[0] + " " + Join(words[1..], " ");
      }
    }
  }

  /** The font size of the initials: half the widget size, at least 8
      points. (`//` floors, as Dafny's `/` does for a positive divisor.) */
  function PointSize(size: int): (r: int)
    ensures r >= 8 && r >= size / 2
    ensures r == 8 || r == size / 2
  {
    if size / 2 > 8 then size / 2 else 8
  }

  /** The side of the scaled image: one pixel of margin on each side for
      the outline. */
  function InnerSize(size: int, outline: bool): (r: int)
    ensures r <= size
    ensures r == size <==> !outline
  {
    size - if outline then 2 else 0
  }

  /** The outline drawn over the picture. */
  function Outline(outline: bool, highlight: bool): (r: Option<OutlineColor>)
    ensures r.Some? <==> outline || highlight
    ensures r.Some? ==> (r.value == Green <==> highlight)
  {
    if outline || highlight then Some(if highlight then Green else Grey) else None
  }

  /** The source actually shown: a non-empty source that does not exist on
      disk is replaced by what the image cache returns for it, but only
      when a file loader is given. */
  function ResolvedSrc(src: string, onDisk: string -> bool, cacheGet: Option<string -> string>): (r: string)
    ensures src != [] && !onDisk(src) && cacheGet.Some? ==> r == cacheGet.value(src)
    ensures src == [] || onDisk(src) || cacheGet.None? ==> r == src
  {
    if src != [] && !onDisk(src) && cacheGet.Some? then cacheGet.value(src) else src
  }

  /** The picture `set_image` paints. The branch is chosen on the source
      as it was before the cache lookup; the image is loaded from `shown`,
      the source after it. */
  function Render(src: string, shown: string, name: string, fullName: string, size: int, highlight: bool,
                  outline: bool, loadable: string -> bool): (r: Picture)
    ensures r.size == size
    ensures r.content.Badge? <==> src == []
    ensures r.content.Badge? ==> r.content.text == Upper(Initials(fullName, name)) && r.content.pointSize == PointSize(size)
    ensures r.content.Photo? <==> src != [] && loadable(shown)
    ensures r.content.Photo? ==> r.content.path == shown && r.content.side == InnerSize(size, outline)
    ensures r.content.Unloadable? ==> r.content.path == shown
    ensures r.outline == Outline(outline, highlight)
  {
    var content :=
      if src == [] then Badge(Upper(Initials(fullName, name)), PointSize(size))
      else if loadable(shown) then Photo(shown, InnerSize(size, outline))
      else Unloadable(shown);
    Picture(size, content, Outline(outline, highlight))
  }

  class AYUserImage {
    /** `_src`: the image path or cache key; empty for an initials badge. */
    var src: string
    var name: string
    var fullName: string
    var size: int
    var highlight: bool
    var outline: bool
    /** `Path(p).exists()`. */
    const onDisk: string -> bool
    /** Whether `QtGui.QPixmap(p)` loads. */
    const loadable: string -> bool
    /** With a file loader: what the image cache's `get` returns for a key
        fetched with that loader; `None` without a file loader. */
    const cacheGet: Option<string -> string>
    /** The pixmap set on the label. */
    var picture: Picture

    /** Stores the parameters and paints the picture. */
    constructor (src: string, name: string, fullName: string, size: int, highlight: bool, outline: bool,
                 onDisk: string -> bool, loadable: string -> bool, cacheGet: Option<string -> string>)
      ensures this.name == name && this.fullName == fullName && this.size == size
      ensures this.highlight == highlight && this.outline == outline
      ensures this.onDisk == onDisk && this.loadable == loadable && this.cacheGet == cacheGet
      ensures this.src == ResolvedSrc(src, onDisk, cacheGet)
      ensures picture == Render(src, this.src, name, fullName, size, highlight, outline, loadable)
    {
      this.src := src;
      this.name := name;
      this.fullName := fullName;
      this.size := size;
      this.highlight := highlight;
      this.outline := outline;
      this.onDisk := onDisk;
      this.loadable := loadable;
      this.cacheGet := cacheGet;
      picture := Picture(size, Unloadable(src), None);
      new;
      SetImage();
    }

    /** `set_image`: resolves the source through the cache when needed,
        then paints the picture from the current parameters. */
    method SetImage()
      modifies this
      ensures name == old(name) && fullName == old(fullName) && size == old(size)
      ensures highlight == old(highlight) && outline == old(outline)
      ensures src == ResolvedSrc(old(src), onDisk, cacheGet)
      ensures picture == Render(old(src), src, name, fullName, size, highlight, outline, loadable)
    {
      var color := if highlight then Green else Grey;
      var content: Content;
      if src != [] {
        if !onDisk(src) && cacheGet.Some? {
          src := cacheGet.value(src);
        }
        if loadable(src) {
          content := Photo(src, size - if outline then 2 else 0);
        } else {
          content := Unloadable(src);
        }
      } else {
        var initials := "?";
        if fullName != [] {
          var words := SplitWs(fullName);
          assert forall i :: 0 <= i < |words| ==> words[i] in words;
          initials := FirstChars(words);
        } else if name != [] {
          initials := [name[0]];
        }
        var pointSize := if 8 < size / 2 then size / 2 else 8;
        content := Badge(Upper(initials), pointSize);
      }
      var drawn: Option<OutlineColor> := None;
      if outline || highlight {
        drawn := Some(color);
      }
      picture := Picture(size, content, drawn);
    }

    /** `update_params`: a new source and full name, then a repaint. */
    method UpdateParams(src: string, fullName: string)
      modifies this
      ensures name == old(name) && this.fullName == fullName && size == old(size)
      ensures highlight == old(highlight) && outline == old(outline)
      ensures this.src == ResolvedSrc(src, onDisk, cacheGet)
      ensures picture == Render(src, this.src, name, fullName, size, highlight, outline, loadable)
    {
      this.src := src;
      this.fullName := fullName;
      SetImage();
    }
  }
}
