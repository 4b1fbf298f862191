/** The comment editor `AYTextBox`: its comment-category items, its two
    attachment lists (image annotations and plain files) and the attachment
    thumbnail widget. */
module TextBox {
  import opened Wrappers

  /** `CommentCategory`, reduced to what the editor reads. */
  datatype CommentCategory = CommentCategory(name: string, color: string)

  /** One item of the category combo box: `{text, short_text, icon, color}`. */
  datatype CategoryItem = CategoryItem(text: string, shortText: string, icon: string, color: string)

  /** The item offered when the project defines no category. */
  const NoCategory := CategoryItem("No category", "No category", "crop_square", "#707070")

  /** `_dict_from_comment_category`: one item per category, in order, named
      by the category name; the single "No category" item when there are
      none. */
  function CategoryItems(cats: seq<CommentCategory>): (r: seq<CategoryItem>)
    ensures r != []
    ensures cats == [] ==> r == [NoCategory]
    ensures cats != [] ==> |r| == |cats|
    ensures forall i :: 0 <= i < |cats| && cats != [] ==>
              r[i].text == cats[i].name && r[i].shortText == cats[i].name
              && r[i].icon == "crop_square" && r[i].color == cats[i].color
  {
    if cats == [] then [NoCategory]
    else seq(|cats|, i requires 0 <= i < |cats| => CategoryItem(cats[i].name, cats[i].name, "crop_square", cats[i].color))
  }

  /** The filename label under a thumbnail: names longer than 12 characters
      are cut to 12 and followed by "...". */
  function FilenameLabel(name: string): (r: string)
    ensures |name| <= 12 ==> r == name
    ensures |name| > 12 ==> |r| == 15 && r[..12] == name[..12] && r[12..] == "..."
  {
    if |name| > 12 then name[..12] + "..." else name
  }

  /** `AttachmentWidget`: one thumbnail with its filename label. */
  class AttachmentWidget {
    var index: int
    var filename: string
    var filePath: string
    /** The text of the filename label. */
    var caption: string

    constructor (index: int, filename: string, filePath: string)
      ensures this.index == index && this.filename == filename && this.filePath == filePath
      ensures caption == FilenameLabel(filename)
    {
      this.index := index;
      this.filename := filename;
      this.filePath := filePath;
      caption := FilenameLabel(filename);
    }

    /** `update_content`: an empty argument keeps the current value; the
        label is refreshed either way. */
    method UpdateContent(newFilename: string, newFilePath: string)
      modifies this
      ensures filename == if newFilename != [] then newFilename else old(filename)
      ensures filePath == if newFilePath != [] then newFilePath else old(filePath)
      ensures caption == FilenameLabel(filename) && index == old(index)
    {
      if newFilename != [] {
        filename := newFilename;
      }
      if newFilePath != [] {
        filePath := newFilePath;
      }
      caption := FilenameLabel(filename);
    }
  }

  /** An annotation attachment as given to `add_annotation_attachments`:
      each entry may be missing. */
  datatype AnnotationInput = AnnotationInput(filePattern: Option<string>, currentFrame: Option<int>,
                                             filename: Option<string>, filePath: Option<string>,
                                             timestamp: Option<int>)

  /** A stored annotation attachment. */
  datatype Annotation = Annotation(filePattern: string, currentFrame: int, filePath: string,
                                   filename: string, timestamp: int)

  /** The stored form of an input: missing strings become "" and missing
      numbers 0. */
  function FromInput(a: AnnotationInput): Annotation
  {
    Annotation(a.filePattern.GetOr(""), a.currentFrame.GetOr(0), a.filePath.GetOr(""),
               a.filename.GetOr(""), a.timestamp.GetOr(0))
  }

  /** The identity of an annotation: its file pattern and frame. */
  function PairOf(a: Annotation): (string, int)
  {
    (a.filePattern, a.currentFrame)
  }

  /** Position of the first annotation with the given pair. */
  function FindPair(list: seq<Annotation>, pair: (string, int)): (r: Option<nat>)
    ensures r.Some? ==> r.value < |list| && PairOf(list[r.value]) == pair
                        && forall j :: 0 <= j < r.value ==> PairOf(list[j]) != pair
    ensures r.None? ==> forall j :: 0 <= j < |list| ==> PairOf(list[j]) != pair
  {
    if list == [] then None
    else if PairOf(list[0]) == pair then Some(0)
    else match FindPair(list[1..], pair)
      case None => None
      case Some(i) => Some(i + 1)
  }

  /** One step of `add_annotation_attachments`: the first entry with the
      same pair takes the new path, filename and timestamp; otherwise the
      attachment is appended. */
  function AddAnnotation(list: seq<Annotation>, a: Annotation): (r: seq<Annotation>)
    ensures a in r
  {
    match FindPair(list, PairOf(a))
    case None =>
      assert (list + [a])[|list|] == a;
      list + [a]
    case Some(i) =>
      assert list[i := a][i] == a;
      list[i := a]
  }

  /** `add_annotation_attachments` over all inputs, in order. */
  function AddAnnotations(list: seq<Annotation>, inputs: seq<AnnotationInput>): seq<Annotation>
  {
    if inputs == [] then list
    else AddAnnotation(AddAnnotations(list, inputs[..|inputs| - 1]), FromInput(inputs[|inputs| - 1]))
  }

  /** No two annotations share a pair. */
  predicate UniquePairs(list: seq<Annotation>)
  {
    forall i, j :: 0 <= i < j < |list| ==> PairOf(list[i]) != PairOf(list[j])
  }

  /** Some annotation has this pair. */
  predicate HasPair(list: seq<Annotation>, pair: (string, int))
  {
    exists m :: 0 <= m < |list| && PairOf(list[m]) == pair
  }

  /** Every annotation with `a`'s pair is `a`. */
  predicate PairHolds(list: seq<Annotation>, a: Annotation)
  {
    forall m :: 0 <= m < |list| && PairOf(list[m]) == PairOf(a) ==> list[m] == a
  }

  /** Adding keeps pairs unique, never drops a pair, and gives the added
      attachment's pair exactly the added data. */
  lemma AddAnnotationSpec(list: seq<Annotation>, a: Annotation)
    requires UniquePairs(list)
    ensures UniquePairs(AddAnnotation(list, a))
    ensures forall pair :: HasPair(list, pair) ==> HasPair(AddAnnotation(list, a), pair)
    ensures HasPair(AddAnnotation(list, a), PairOf(a)) && PairHolds(AddAnnotation(list, a), a)
    ensures |list| <= |AddAnnotation(list, a)| <= |list| + 1
  {
    var r := AddAnnotation(list, a);
    var m :| 0 <= m < |r| && r[m] == a;
    match FindPair(list, PairOf(a))
    case None =>
      assert r == list + [a];
      forall pair | HasPair(list, pair) ensures HasPair(r, pair) {
        var j :| 0 <= j < |list| && PairOf(list[j]) == pair;
        assert r[j] == list[j];
      }
    case Some(i) =>
      assert r == list[i := a];
      forall pair | HasPair(list, pair) ensures HasPair(r, pair) {
        var j :| 0 <= j < |list| && PairOf(list[j]) == pair;
        assert PairOf(r[j]) == pair;
      }
  }

  /** After adding many, pairs are still unique, every input's pair is
      present, and the pair of the last input carries that input's data. */
  lemma {:induction false} AddAnnotationsSpec(list: seq<Annotation>, inputs: seq<AnnotationInput>)
    requires UniquePairs(list)
    ensures UniquePairs(AddAnnotations(list, inputs))
    ensures |AddAnnotations(list, inputs)| <= |list| + |inputs|
    ensures forall pair :: HasPair(list, pair) ==> HasPair(AddAnnotations(list, inputs), pair)
    ensures forall j :: 0 <= j < |inputs| ==> HasPair(AddAnnotations(list, inputs), PairOf(FromInput(inputs[j])))
    ensures inputs != [] ==> PairHolds(AddAnnotations(list, inputs), FromInput(inputs[|inputs| - 1]))
    decreases |inputs|
  {
    if inputs != [] {
      var p := inputs[..|inputs| - 1];
      var a := FromInput(inputs[|inputs| - 1]);
      AddAnnotationsSpec(list, p);
      var before := AddAnnotations(list, p);
      AddAnnotationSpec(before, a);
      var r := AddAnnotations(list, inputs);
      assert r == AddAnnotation(before, a);
      forall j | 0 <= j < |inputs| ensures HasPair(r, PairOf(FromInput(inputs[j]))) {
        if j < |p| {
          assert inputs[j] == p[j];
        }
      }
    }
  }

  /** Inputs that give no pattern and no frame all share the pair ("", 0),
      so they collapse into one attachment. */
  lemma NoPatternCollapses(list: seq<Annotation>, x: AnnotationInput, y: AnnotationInput)
    requires UniquePairs(list)
    requires x.filePattern.None? && x.currentFrame.None? && y.filePattern.None? && y.currentFrame.None?
    ensures |AddAnnotations(list, [x, y])| == |AddAnnotations(list, [x])|
  {
    var l1 := AddAnnotations(list, [x]);
    assert [x, y][..1] == [x];
    assert AddAnnotations(list, [x, y]) == AddAnnotation(l1, FromInput(y));
    assert l1 == AddAnnotation(AddAnnotations(list, []), FromInput(x));
    var m :| 0 <= m < |l1| && l1[m] == FromInput(x);
    assert PairOf(l1[m]) == PairOf(FromInput(y));
  }

  /** One step of `add_file_attachments`: a path already present is
      skipped. */
  function AddFile(files: seq<string>, path: string): seq<string>
  {
    if path in files then files else files + [path]
  }

  /** `add_file_attachments` over all paths, in order. */
  function AddFiles(files: seq<string>, paths: seq<string>): seq<string>
  {
    if paths == [] then files else AddFile(AddFiles(files, paths[..|paths| - 1]), paths[|paths| - 1])
  }

  predicate NoDup(s: seq<string>)
  {
    forall i, j :: 0 <= i < j < |s| ==> s[i] != s[j]
  }

  /** The old list is kept as a prefix, the result holds exactly the old
      and the new paths, and it has no duplicates when the old list had
      none, even when a path repeats within one call. */
  lemma {:induction false} AddFilesSpec(files: seq<string>, paths: seq<string>)
    ensures |files| <= |AddFiles(files, paths)| && AddFiles(files, paths)[..|files|] == files
    ensures forall p :: p in AddFiles(files, paths) <==> p in files || p in paths
    ensures NoDup(files) ==> NoDup(AddFiles(files, paths))
    decreases |paths|
  {
    if paths != [] {
      var q := paths[..|paths| - 1];
      AddFilesSpec(files, q);
      var before := AddFiles(files, q);
      assert paths == q + [paths[|paths| - 1]];
      if paths[|paths| - 1] !in before {
        assert (before + [paths[|paths| - 1]])[..|files|] == before[..|files|];
      }
    }
  }

  /** What `comment_submitted` carries: the markdown, the category and the
      file list. */
  datatype Submission = Submission(markdown: string, category: string, files: seq<string>)

  class AYTextBox {
    /** `comment_categories`. */
    var categories: seq<CategoryItem>
    /** `category`: the chosen category's text. */
    var category: string
    /** `_annotation_attachments`. */
    var annotations: seq<Annotation>
    /** `_file_attachments`. */
    var files: seq<string>
    /** How many times the file list display was rebuilt. */
    var fileRefreshes: nat
    /** The comments submitted so far. */
    var submissions: seq<Submission>
    /** `show_categories`: whether the category combo box exists. */
    const showCategories: bool

    /** `AYTextBox.__init__`: the "No category" item is chosen and both
        attachment lists are empty. The combo box, when shown, is connected
        only after it has added its items, so it does not change the
        category. */
    constructor (showCategories: bool)
      ensures this.showCategories == showCategories
      ensures categories == CategoryItems([]) && category == "No category"
      ensures annotations == [] && files == [] && fileRefreshes == 0 && submissions == []
    {
      this.showCategories := showCategories;
      categories := CategoryItems([]);
      category := CategoryItems([])[0].text;
      annotations := [];
      files := [];
      fileRefreshes := 0;
      submissions := [];
    }

    /** `add_annotation_attachments`. */
    method AddAnnotationAttachments(inputs: seq<AnnotationInput>)
      modifies this
      ensures annotations == AddAnnotations(old(annotations), inputs)
      ensures files == old(files) && category == old(category) && submissions == old(submissions)
      ensures fileRefreshes == old(fileRefreshes) && categories == old(categories)
    {
      for i := 0 to |inputs|
        invariant annotations == AddAnnotations(old(annotations), inputs[..i])
        invariant files == old(files) && category == old(category) && submissions == old(submissions)
        invariant fileRefreshes == old(fileRefreshes) && categories == old(categories)
      {
        assert inputs[..i + 1][..i] == inputs[..i];
        var a := FromInput(inputs[i]);
        var found := FindPair(annotations, PairOf(a));
        if found.Some? {
          annotations := annotations[found.value := a];
        } else {
          annotations := annotations + [a];
        }
      }
      assert inputs[..|inputs|] == inputs;
    }

    /** `add_file_attachments`: new paths are appended in order, paths
        already present are skipped, and the display is rebuilt once when
        anything was added. */
    method AddFileAttachments(paths: seq<string>)
      modifies this
      ensures files == AddFiles(old(files), paths)
      ensures fileRefreshes == old(fileRefreshes) + if |files| > |old(files)| then 1 else 0
      ensures annotations == old(annotations) && category == old(category)
      ensures submissions == old(submissions) && categories == old(categories)
    {
      if paths == [] {
        return;
      }
      var added := 0;
      for i := 0 to |paths|
        invariant files == AddFiles(old(files), paths[..i]) && |files| == |old(files)| + added
        invariant annotations == old(annotations) && fileRefreshes == old(fileRefreshes)
        invariant category == old(category) && submissions == old(submissions) && categories == old(categories)
      {
        assert paths[..i + 1][..i] == paths[..i];
        if paths[i] in files {
          continue;
        }
        files := files + [paths[i]];
        added := added + 1;
      }
      assert paths[..|paths|] == paths;
      if added > 0 {
        fileRefreshes := fileRefreshes + 1;
      }
    }

    /** `_on_annotation_attachment_removed`: pops only an index in range. */
    method OnAnnotationRemoved(index: int)
      modifies this
      ensures 0 <= index < |old(annotations)| ==> annotations == old(annotations)[..index] + old(annotations)[index + 1..]
      ensures !(0 <= index < |old(annotations)|) ==> annotations == old(annotations)
      ensures files == old(files) && category == old(category) && submissions == old(submissions)
      ensures fileRefreshes == old(fileRefreshes) && categories == old(categories)
    {
      if 0 <= index < |annotations| {
        annotations := annotations[..index] + annotations[index + 1..];
      }
    }

    /** `_on_file_attachment_removed`: pops only an index in range. */
    method OnFileRemoved(index: int)
      modifies this
      ensures 0 <= index < |old(files)| ==> files == old(files)[..index] + old(files)[index + 1..]
                                            && fileRefreshes == old(fileRefreshes) + 1
      ensures !(0 <= index < |old(files)|) ==> files == old(files) && fileRefreshes == old(fileRefreshes)
      ensures annotations == old(annotations) && category == old(category)
      ensures submissions == old(submissions) && categories == old(categories)
    {
      if 0 <= index < |files| {
        files := files[..index] + files[index + 1..];
        fileRefreshes := fileRefreshes + 1;
      }
    }

    /** `_on_comment_clicked`: emits the markdown, the category and the file
        list, then empties both attachment lists. */
    method OnCommentClicked(markdown: string)
      modifies this
      ensures submissions == old(submissions) + [Submission(markdown, old(category), old(files))]
      ensures annotations == [] && files == []
      ensures fileRefreshes == old(fileRefreshes) + 1
      ensures category == old(category) && categories == old(categories)
    {
      submissions := submissions + [Submission(markdown, category, files)];
      ClearAnnotationAttachments();
      ClearFileAttachments();
    }

    /** `clear_annotation_attachment`. */
    method ClearAnnotationAttachments()
      modifies this
      ensures annotations == []
      ensures files == old(files) && fileRefreshes == old(fileRefreshes)
      ensures category == old(category) && categories == old(categories) && submissions == old(submissions)
    {
      annotations := [];
    }

    /** `clear_file_attachments`: empties the file list and rebuilds its
        display. */
    method ClearFileAttachments()
      modifies this
      ensures files == [] && fileRefreshes == old(fileRefreshes) + 1
      ensures annotations == old(annotations)
      ensures category == old(category) && categories == old(categories) && submissions == old(submissions)
    {
      files := [];
      fileRefreshes := fileRefreshes + 1;
    }

    /** `_on_category_changed`. */
    method OnCategoryChanged(c: string)
      modifies this
      ensures category == c
      ensures annotations == old(annotations) && files == old(files) && fileRefreshes == old(fileRefreshes)
      ensures submissions == old(submissions) && categories == old(categories)
    {
      category := c;
    }

    /** `on_ctlr_project_changed`: the category items come from the
        project. Without the combo box the chosen category is left as it
        was. With it, `update_items` gives the box a fresh model and adds the
        (never empty) items to it; the first one added becomes current, and
        `currentTextChanged` makes its text the chosen category. */
    method OnProjectChanged(cats: seq<CommentCategory>)
      modifies this
      ensures categories == CategoryItems(cats)
      ensures category == if showCategories then CategoryItems(cats)[0].text else old(category)
      ensures annotations == old(annotations) && files == old(files) && fileRefreshes == old(fileRefreshes)
      ensures submissions == old(submissions)
    {
      categories := CategoryItems(cats);
      if showCategories {
        OnCategoryChanged(categories[0].text);
      }
    }
  }
}
