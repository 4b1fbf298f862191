/** A comment in the activity stream: the status-change line's icon lookup,
    the choice between the web markdown reader and the standard one, the
    image attachments shown under the text, the memoised background colour
    and the edit mode of the comment widget. */
module Comment {
  import opened Wrappers
  import opened Text
  import ODict
  import WebMarkdown

  // ---------------------------------------------------------------------
  // Status icons
  // ---------------------------------------------------------------------

  /** A status definition `{text, short_text, icon, color}`. */
  datatype StatusDef = StatusDef(text: string, shortText: string, icon: string, color: string)

  /** The statuses used when none are given. */
  const AllStatuses: seq<StatusDef> := [
    StatusDef("Not ready", "NRD", "fiber_new", "#434a56"),
    StatusDef("Ready to start", "RDY", "timer", "#bababa"),
    StatusDef("In progress", "PRG", "play_arrow", "#3498db"),
    StatusDef("Pending review", "RVW", "visibility", "#ff9b0a"),
    StatusDef("Approved", "APP", "task_alt", "#00f0b4"),
    StatusDef("On hold", "HLD", "back_hand", "#fa6e46"),
    StatusDef("Omitted", "OMT", "block", "#cb1a1a")
  ]

  /** The status shown for a name no definition has. */
  const UnknownStatus := StatusDef("Unknown Status", "UKN", "shield_question", "#d05050")

  /** `{kw["text"]: StatusUiModel(**kw) for kw in defs}`: each definition
      assigned under its text, in order. */
  function StatusTable(defs: seq<StatusDef>): ODict.Dict<string, StatusDef>
  {
    if defs == [] then []
    else ODict.Set(StatusTable(defs[..|defs| - 1]), defs[|defs| - 1].text, defs[|defs| - 1])
  }

  /** Definition j is the last one with this text. */
  predicate LastWithText(defs: seq<StatusDef>, s: string, j: nat)
  {
    j < |defs| && defs[j].text == s && forall i :: j < i < |defs| ==> defs[i].text != s
  }

  /** The last definition with this text. */
  function LastDef(defs: seq<StatusDef>, s: string): (r: Option<StatusDef>)
    ensures r.None? <==> forall i :: 0 <= i < |defs| ==> defs[i].text != s
    ensures forall j: nat :: LastWithText(defs, s, j) ==> r == Some(defs[j])
  {
    if defs == [] then None
    else if defs[|defs| - 1].text == s then Some(defs[|defs| - 1])
    else
      var p := defs[..|defs| - 1];
      assert forall j: nat :: LastWithText(defs, s, j) ==> LastWithText(p, s, j);
      LastDef(p, s)
  }

  /** The table finds, for each text, the last definition with that text. */
  lemma {:induction false} StatusTableGet(defs: seq<StatusDef>, s: string)
    ensures ODict.Get(StatusTable(defs), s) == LastDef(defs, s)
    decreases |defs|
  {
    if defs != [] {
      var p := defs[..|defs| - 1];
      var x := defs[|defs| - 1];
      StatusTableGet(p, s);
      if x.text != s {
        ODict.SetOther(StatusTable(p), x.text, x, s);
      }
    }
  }

  /** `status_icon`: the icon and colour of the status, from the given
      definitions or, when there are none, the built-in ones. */
  function StatusIcon(definitions: seq<StatusDef>, status: string): (r: (string, string))
  {
    var defs := if definitions == [] then AllStatuses else definitions;
    var d := ODict.Get(StatusTable(defs), status).GetOr(UnknownStatus);
    (d.icon, d.color)
  }

  /** A status no definition names gets the question-mark shield; a
      defined one gets the icon and colour of its last definition. */
  lemma StatusIconSpec(definitions: seq<StatusDef>, status: string)
    ensures var defs := if definitions == [] then AllStatuses else definitions;
            ((forall i :: 0 <= i < |defs| ==> defs[i].text != status) ==>
               StatusIcon(definitions, status) == ("shield_question", "#d05050"))
            && (forall j: nat :: LastWithText(defs, status, j) ==>
                  StatusIcon(definitions, status) == (defs[j].icon, defs[j].color))
  {
    var defs := if definitions == [] then AllStatuses else definitions;
    StatusTableGet(defs, status);
  }

  // ---------------------------------------------------------------------
  // Web markdown detection
  // ---------------------------------------------------------------------

  /** The markers whose presence sends a text to the web markdown reader. */
  const WebMarkers: seq<string> := ["\n----", "**", "_", "[", "`"]

  /** `set_markdown`'s test: the text holds one of the markers. */
  predicate HasWebMarkdown(md: string)
  {
    exists p :: p in WebMarkers && Contains(md, p)
  }

  /** An occurrence at position i is found by `in`. */
  lemma {:induction false} ContainsAt(s: string, sub: string, i: nat)
    requires i + |sub| <= |s| && s[i..i + |sub|] == sub
    ensures Contains(s, sub)
    decreases i
  {
    if i > 0 {
      assert s[1..][i - 1..i - 1 + |sub|] == sub;
      ContainsAt(s[1..], sub, i - 1);
    }
  }

  /** A span of one of the web reader's kinds holds one of the markers,
      a heading when it is underlined by at least four dashes. */
  lemma SpanDetected(md: string, f: WebMarkdown.Fmt)
    requires WebMarkdown.Spans(md, f)
    requires f.kind != WebMarkdown.H1 || f.end - f.start - |f.content| >= 5
    ensures HasWebMarkdown(md)
  {
    match f.kind
    case H1 =>
      var n := f.start + |f.content|;
      assert md[n..n + 5] == "\n----";
      ContainsAt(md, "\n----", n);
      assert "\n----" in WebMarkers;
    case Link =>
      assert md[f.start] == md[f.start..f.end][0] == '[';
      assert md[f.start..f.start + 1] == [md[f.start]];
      ContainsAt(md, "[", f.start);
      assert "[" in WebMarkers;
    case Bold =>
      assert md[f.start..f.end][..2] == "**";
      assert md[f.start..f.start + 2] == "**";
      ContainsAt(md, "**", f.start);
      assert "**" in WebMarkers;
    case Italic =>
      assert md[f.start] == md[f.start..f.end][0] == '_';
      assert md[f.start..f.start + 1] == [md[f.start]];
      ContainsAt(md, "_", f.start);
      assert "_" in WebMarkers;
    case Code =>
      assert md[f.start] == md[f.start..f.end][0] == '`';
      assert md[f.start..f.start + 1] == [md[f.start]];
      ContainsAt(md, "`", f.start);
      assert "`" in WebMarkers;
  }

  /** Every bold, italic, link or code span the web reader finds, and every
      heading underlined by at least four dashes, makes `set_markdown` use
      the web reader. */
  lemma WebSpansDetected(md: string, k: nat)
    requires k < |WebMarkdown.Parse(md)|
    requires var f := WebMarkdown.Parse(md)[k];
             f.kind != WebMarkdown.H1 || f.end - f.start - |f.content| >= 5
    ensures HasWebMarkdown(md)
  {
    WebMarkdown.ParseSpec(md);
    SpanDetected(md, WebMarkdown.Parse(md)[k]);
  }

  /** The test is narrower than the web reader: a heading underlined by
      two dashes is one the web reader finds, but the text goes to the
      standard reader. */
  lemma ShortHeadingMissed(md: string)
    requires md == "a\n--"
    ensures WebMarkdown.ScanH1(md, 0) == [WebMarkdown.Fmt(WebMarkdown.H1, 0, 4, "a", "")]
    ensures !HasWebMarkdown(md)
  {
    assert md[0..] == md && md[1..][0] == '\n';
    assert LeadCount(md[1..], WebMarkdown.NotNewline) == 0;
    assert LeadCount(md, WebMarkdown.NotNewline) == 1;
    assert md[2..] == "--" && md[2..][1..] == "-" && md[2..][2..] == [];
    assert LeadCount(md[2..][2..], WebMarkdown.IsDash) == 0;
    assert LeadCount(md[2..][1..], WebMarkdown.IsDash) == 1;
    assert LeadCount(md[2..], WebMarkdown.IsDash) == 2;
    assert WebMarkdown.H1At(md, 0) == Some((1, 4));
    assert md[0..1] == "a";
    assert WebMarkdown.ScanH1(md, 4) == [];
    forall p | p in WebMarkers ensures !Contains(md, p) {
      NotContains(md, p);
    }
  }

  /** What `in` finds is no longer than the text and starts with one of
      its characters. */
  lemma {:induction false} ContainsFacts(s: string, sub: string)
    requires Contains(s, sub)
    ensures |sub| <= |s| && (sub != [] ==> sub[0] in s)
    decreases |s|
  {
    if !StartsWith(s, sub) {
      ContainsFacts(s[1..], sub);
    } else if sub != [] {
      assert s[0] == s[..|sub|][0];
    }
  }

  /** No marker occurs in the short heading text. */
  lemma NotContains(md: string, p: string)
    requires md == "a\n--" && p in WebMarkers
    ensures !Contains(md, p)
  {
    if Contains(md, p) {
      ContainsFacts(md, p);
    }
  }

  // ---------------------------------------------------------------------
  // Image attachments
  // ---------------------------------------------------------------------

  /** An attached file: its id and local path. */
  datatype FileEntry = FileEntry(id: string, localPath: string)

  /** An image widget: its path and fixed width. */
  datatype Image = Image(path: string, width: int)

  /** Some annotation names this file as its transparent layer. */
  predicate IsTransparent(f: FileEntry, transparent: seq<string>)
  {
    f.id in transparent
  }

  /** Files shown as images: those no annotation names as transparent. */
  function ImageCount(files: seq<FileEntry>, transparent: seq<string>): (n: nat)
    ensures n <= |files|
  {
    if files == [] then 0
    else (if IsTransparent(files[0], transparent) then 0 else 1) + ImageCount(files[1..], transparent)
  }

  /** `int(a / n)` for a positive n: the quotient truncated toward zero. */
  function TruncDiv(a: int, n: int): (q: int)
    requires n > 0
    ensures a >= 0 ==> q * n <= a < (q + 1) * n
    ensures a < 0 ==> q <= 0
  {
    if a >= 0 then a / n else -((-a) / n)
  }

  /** The width of each image: the text width less 4 pixels between
      images, shared out and truncated, at least 100; 400 without images. */
  function ImageWidth(textWidth: int, n: nat): (w: int)
    ensures w >= 100
    ensures n > 0 && w > 100 ==> n * w + 4 * (n - 1) <= textWidth < n * (w + 1) + 4 * (n - 1)
    ensures n > 0 && n * 100 + 4 * (n - 1) > textWidth ==> w == 100
  {
    if n > 0 then
      var q := TruncDiv(textWidth - 4 * (n - 1), n);
      if q >= 100 then q else 100
    else 400
  }

  /** The images built from the files in order at a fixed width:
      transparent files are skipped, and the first file whose path does not
      exist ends the whole build. Gives the images and whether every file
      was reached. */
  function Attachments(files: seq<FileEntry>, transparent: seq<string>, exists_: string -> bool, width: int)
    : (seq<Image>, bool)
    decreases |files|
  {
    if files == [] then ([], true)
    else
      var f := files[0];
      var rest := Attachments(files[1..], transparent, exists_, width);
      if IsTransparent(f, transparent) then rest
      else if !exists_(f.localPath) then ([], false)
      else ([Image(f.localPath, width)] + rest.0, rest.1)
  }

  /** The files no annotation names as transparent, in order. */
  function NonTransparent(files: seq<FileEntry>, transparent: seq<string>): (r: seq<FileEntry>)
    ensures |r| == ImageCount(files, transparent)
    ensures forall f :: f in r <==> f in files && !IsTransparent(f, transparent)
  {
    if files == [] then []
    else (if IsTransparent(files[0], transparent) then [] else [files[0]]) + NonTransparent(files[1..], transparent)
  }

  /** One image per file, at the given width. */
  function ImagesOf(fs: seq<FileEntry>, width: int): (r: seq<Image>)
    ensures |r| == |fs|
    ensures forall i :: 0 <= i < |fs| ==> r[i] == Image(fs[i].localPath, width)
  {
    if fs == [] then [] else [Image(fs[0].localPath, width)] + ImagesOf(fs[1..], width)
  }

  /** The build reaches the end exactly when every non-transparent file
      exists, and then shows one image per non-transparent file; every
      image is as wide as asked and its path exists. The images are those
      of the non-transparent files, in order, up to the first whose path is
      missing, which stops the build. */
  lemma {:induction false} AttachmentsSpec(files: seq<FileEntry>, transparent: seq<string>, exists_: string -> bool,
                                           width: int)
    ensures var r := Attachments(files, transparent, exists_, width);
            |r.0| <= ImageCount(files, transparent)
            && (r.1 <==> forall i :: 0 <= i < |files| && !IsTransparent(files[i], transparent) ==> exists_(files[i].localPath))
            && (r.1 ==> |r.0| == ImageCount(files, transparent))
            && (forall i :: 0 <= i < |r.0| ==> r.0[i].width == width && exists_(r.0[i].path))
    ensures ImagesPrefix(Attachments(files, transparent, exists_, width), NonTransparent(files, transparent), exists_, width)
    decreases |files|
  {
    if files != [] {
      AttachmentsSpec(files[1..], transparent, exists_, width);
      assert forall i :: 1 <= i < |files| ==> files[i] == files[1..][i - 1];
    }
    AttachmentsImages(files, transparent, exists_, width);
  }

  /** `r` is what a build over the files `shown` gives: the images of a
      prefix of `shown`, all of them when the build completes, and
      otherwise cut just before a file whose path is missing. */
  predicate ImagesPrefix(r: (seq<Image>, bool), shown: seq<FileEntry>, exists_: string -> bool, width: int)
  {
    var all := ImagesOf(shown, width);
    |r.0| <= |all| && r.0 == all[..|r.0|] && (r.1 ==> r.0 == all)
    && (!r.1 ==> |r.0| < |shown| && !exists_(shown[|r.0|].localPath))
  }

  /** The images are those of the non-transparent files, in order, up to
      the first whose path is missing. */
  lemma {:induction false} AttachmentsImages(files: seq<FileEntry>, transparent: seq<string>, exists_: string -> bool,
                                             width: int)
    ensures ImagesPrefix(Attachments(files, transparent, exists_, width), NonTransparent(files, transparent), exists_, width)
    decreases |files|
  {
    if files != [] {
      var f, tail := files[0], files[1..];
      AttachmentsImages(tail, transparent, exists_, width);
      var r, rt := Attachments(files, transparent, exists_, width), Attachments(tail, transparent, exists_, width);
      var shown, rest := NonTransparent(files, transparent), NonTransparent(tail, transparent);
      if IsTransparent(f, transparent) {
        assert r == rt && shown == rest;
      } else if exists_(f.localPath) {
        assert r == ([Image(f.localPath, width)] + rt.0, rt.1) && shown == [f] + rest;
        ImagesPrefixCons(f, rest, rt, exists_, width);
      } else {
        assert r == ([], false) && shown == [f] + rest;
        ImagesPrefixStop(f, rest, exists_, width);
      }
    }
  }

  /** An existing file in front adds its image in front. */
  lemma ImagesPrefixCons(f: FileEntry, rest: seq<FileEntry>, r: (seq<Image>, bool), exists_: string -> bool, width: int)
    requires exists_(f.localPath) && ImagesPrefix(r, rest, exists_, width)
    ensures ImagesPrefix(([Image(f.localPath, width)] + r.0, r.1), [f] + rest, exists_, width)
  {
    ImagesOfCons(f, rest, width);
    var x, all := Image(f.localPath, width), ImagesOf(rest, width);
    assert ([x] + all)[..|r.0| + 1] == [x] + all[..|r.0|];
    if !r.1 {
      assert ([f] + rest)[|r.0| + 1] == rest[|r.0|];
    }
  }

  /** A missing file in front stops the build before any image. */
  lemma ImagesPrefixStop(f: FileEntry, rest: seq<FileEntry>, exists_: string -> bool, width: int)
    requires !exists_(f.localPath)
    ensures ImagesPrefix(([], false), [f] + rest, exists_, width)
  {
    assert ([f] + rest)[0] == f;
  }

  lemma ImagesOfCons(f: FileEntry, fs: seq<FileEntry>, width: int)
    ensures ImagesOf([f] + fs, width) == [Image(f.localPath, width)] + ImagesOf(fs, width)
  {
    assert ([f] + fs)[1..] == fs;
  }

  /** The first non-transparent file ends the images when its path is
      missing, and comes first among them otherwise. */
  lemma AttachmentsFirst(files: seq<FileEntry>, transparent: seq<string>, exists_: string -> bool, width: int)
    requires files != [] && !IsTransparent(files[0], transparent)
    ensures var r := Attachments(files, transparent, exists_, width);
            (!exists_(files[0].localPath) ==> r == ([], false))
            && (exists_(files[0].localPath) ==> r.0 != [] && r.0[0] == Image(files[0].localPath, width))
  {
  }

  // ---------------------------------------------------------------------
  // The comment widget
  // ---------------------------------------------------------------------

  /** What the comment widget emits. */
  datatype Event = Edited(comment: string) | Deleted

  class AYComment {
    /** `_data.comment` and `_data.category_color`. */
    var comment: string
    var categoryColor: string
    /** The markdown last given to the text field, and whether it went
        through the web markdown reader. */
    var shown: string
    var webShown: bool
    /** The text field is read-only. */
    var readOnly: bool
    var cancelVisible: bool
    var saveVisible: bool
    /** The delete / edit buttons frame. */
    var editFrameVisible: bool
    /** `_bg_color`: `None` until first computed. */
    var bgColor: Option<string>
    var images: seq<Image>
    /** Whether the trailing stretch was added to the images row. */
    var imagesStretched: bool
    var events: seq<Event>

    /** Edit mode is exactly when Save and Cancel are shown, and the edit
        buttons are hidden then. */
    predicate Valid()
      reads this
    {
      (readOnly <==> !cancelVisible && !saveVisible) && (!readOnly ==> !editFrameVisible)
    }

    /** The widget over a comment: read-only, its markdown shown, and the
        image attachments built with the text field's width. */
    constructor (comment: string, categoryColor: string, files: seq<FileEntry>, transparent: seq<string>,
                 exists_: string -> bool, textWidth: int)
      ensures Valid() && readOnly && !editFrameVisible && events == [] && bgColor == None
      ensures this.comment == comment && this.categoryColor == categoryColor
      ensures shown == comment && webShown == HasWebMarkdown(comment)
      ensures var r := Attachments(files, transparent, exists_, ImageWidth(textWidth, ImageCount(files, transparent)));
              images == r.0 && imagesStretched == (files != [] && r.1)
    {
      var imgs, stretched := BuildImageAttachments(files, transparent, exists_, textWidth);
      this.comment := comment;
      this.categoryColor := categoryColor;
      shown := comment;
      webShown := HasWebMarkdown(comment);
      readOnly := true;
      cancelVisible := false;
      saveVisible := false;
      editFrameVisible := false;
      bgColor := None;
      images := imgs;
      imagesStretched := stretched;
      events := [];
    }

    /** `get_bg_color`: computed on the first call, or while the stored
        colour is still empty, from the argument blended with the category
        colour when there is one; later calls ignore the argument. */
    method GetBgColor(base: string, blend: (string, string) -> string) returns (r: string)
      modifies this
      ensures old(bgColor).Some? && old(bgColor).value != [] ==> r == old(bgColor).value && bgColor == old(bgColor)
      ensures old(bgColor).None? || old(bgColor).value == [] ==>
                r == (if categoryColor != [] then blend(base, categoryColor) else base) && bgColor == Some(r)
      ensures comment == old(comment) && categoryColor == old(categoryColor) && shown == old(shown)
      ensures webShown == old(webShown) && readOnly == old(readOnly) && cancelVisible == old(cancelVisible)
      ensures saveVisible == old(saveVisible) && editFrameVisible == old(editFrameVisible)
      ensures images == old(images) && imagesStretched == old(imagesStretched) && events == old(events)
    {
      if bgColor.None? || bgColor.value == [] {
        var c := base;
        if categoryColor != [] {
          c := blend(base, categoryColor);
        }
        bgColor := Some(c);
      }
      r := bgColor.value;
    }

    /** `set_markdown` on the text field. */
    method SetMarkdown(md: string)
      modifies this
      ensures shown == md && webShown == HasWebMarkdown(md)
      ensures comment == old(comment) && categoryColor == old(categoryColor) && bgColor == old(bgColor)
      ensures readOnly == old(readOnly) && cancelVisible == old(cancelVisible) && saveVisible == old(saveVisible)
      ensures editFrameVisible == old(editFrameVisible) && images == old(images)
      ensures imagesStretched == old(imagesStretched) && events == old(events)
    {
      shown := md;
      webShown := HasWebMarkdown(md);
    }

    /** `_show_edit_buttons`: does nothing while the field is editable. */
    method ShowEditButtons(state: bool)
      modifies this
      ensures editFrameVisible == if old(readOnly) then state else old(editFrameVisible)
      ensures comment == old(comment) && categoryColor == old(categoryColor) && bgColor == old(bgColor)
      ensures shown == old(shown) && webShown == old(webShown) && readOnly == old(readOnly)
      ensures cancelVisible == old(cancelVisible) && saveVisible == old(saveVisible)
      ensures images == old(images) && imagesStretched == old(imagesStretched) && events == old(events)
    {
      if !readOnly {
        return;
      }
      editFrameVisible := state;
    }

    /** `_edit_comment`: hides the edit buttons, makes the field writable
        and shows Save and Cancel. */
    method EditComment()
      requires Valid()
      modifies this
      ensures Valid() && !readOnly && cancelVisible && saveVisible && !editFrameVisible
      ensures comment == old(comment) && categoryColor == old(categoryColor) && bgColor == old(bgColor)
      ensures shown == old(shown) && webShown == old(webShown)
      ensures images == old(images) && imagesStretched == old(imagesStretched) && events == old(events)
    {
      ShowEditButtons(false);
      readOnly := false;
      cancelVisible := true;
      saveVisible := true;
    }

    /** `_cancel_edit`: read-only again, the stored comment shown again,
        the edit buttons back. */
    method CancelEdit()
      requires Valid()
      modifies this
      ensures Valid() && readOnly && !cancelVisible && !saveVisible && editFrameVisible
      ensures shown == comment && webShown == HasWebMarkdown(comment)
      ensures comment == old(comment) && categoryColor == old(categoryColor) && bgColor == old(bgColor)
      ensures images == old(images) && imagesStretched == old(imagesStretched) && events == old(events)
    {
      readOnly := true;
      cancelVisible := false;
      saveVisible := false;
      SetMarkdown(comment);
      ShowEditButtons(true);
    }

    /** `_save_edit`: read-only again, the field's markdown stored as the
        comment and `comment_edited` emitted with it. */
    method SaveEdit(markdown: string)
      requires Valid()
      modifies this
      ensures Valid() && readOnly && !cancelVisible && !saveVisible && editFrameVisible
      ensures comment == markdown && events == old(events) + [Edited(markdown)]
      ensures shown == old(shown) && webShown == old(webShown)
      ensures categoryColor == old(categoryColor) && bgColor == old(bgColor)
      ensures images == old(images) && imagesStretched == old(imagesStretched)
    {
      readOnly := true;
      cancelVisible := false;
      saveVisible := false;
      ShowEditButtons(true);
      comment := markdown;
      events := events + [Edited(markdown)];
    }

    /** `_confirm_delete`: emits `comment_deleted` when the user says yes. */
    method ConfirmDelete(yes: bool)
      modifies this
      ensures events == old(events) + if yes then [Deleted] else []
      ensures comment == old(comment) && categoryColor == old(categoryColor) && bgColor == old(bgColor)
      ensures shown == old(shown) && webShown == old(webShown) && readOnly == old(readOnly)
      ensures cancelVisible == old(cancelVisible) && saveVisible == old(saveVisible)
      ensures editFrameVisible == old(editFrameVisible) && images == old(images)
      ensures imagesStretched == old(imagesStretched)
    {
      if yes {
        events := events + [Deleted];
      }
    }
  }

  /** The annotation loop of `_build_image_attachments`: whether some
      annotation names the file as transparent. */
  method NamedTransparent(id: string, transparent: seq<string>) returns (found: bool)
    ensures found <==> id in transparent
  {
    found := false;
    for j := 0 to |transparent|
      invariant found <==> id in transparent[..j]
    {
      assert transparent[..j + 1] == transparent[..j] + [transparent[j]];
      if id == transparent[j] {
        found := true;
        break;
      }
    }
    assert transparent[..|transparent|] == transparent;
  }

  /** `_build_image_attachments`: nothing at all without files; otherwise
      one image per non-transparent file in order, every one as wide as
      the width rule gives for the number of non-transparent files; a file
      whose path does not exist ends the build before the trailing
      stretch. */
  method BuildImageAttachments(files: seq<FileEntry>, transparent: seq<string>, exists_: string -> bool,
                               textWidth: int)
    returns (images: seq<Image>, stretched: bool)
    ensures var r := Attachments(files, transparent, exists_, ImageWidth(textWidth, ImageCount(files, transparent)));
            images == r.0 && stretched == (files != [] && r.1)
  {
    images := [];
    stretched := false;
    if files == [] {
      return;
    }
    var width := ImageWidth(textWidth, ImageCount(files, transparent));
    assert files[0..] == files;
    for i := 0 to |files|
      invariant Attachments(files, transparent, exists_, width).0
                == images + Attachments(files[i..], transparent, exists_, width).0
      invariant Attachments(files, transparent, exists_, width).1 == Attachments(files[i..], transparent, exists_, width).1
    {
      assert files[i..][0] == files[i] && files[i..][1..] == files[i + 1..];
      var isTransparent := NamedTransparent(files[i].id, transparent);
      if isTransparent {
        continue;
      }
      if !exists_(files[i].localPath) {
        return;
      }
      images := images + [Image(files[i].localPath, width)];
    }
    stretched := true;
  }
}
