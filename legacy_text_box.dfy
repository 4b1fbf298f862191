/** The older comment editor `AYTextBox`: one attachment list, de-duplicated
    by filename. Its category items and filename label follow the same rules
    as the newer editor's and are shared with it. */
module LegacyTextBox {
  import opened Wrappers
  import TextBox

  /** An attachment as given to `add_attachments`: each entry may be
      missing. */
  datatype AttachmentInput = AttachmentInput(filename: Option<string>, filePath: Option<string>,
                                             timestamp: Option<int>)

  /** A stored attachment `{file_path, filename, timestamp}`; the timestamp
      is `None` when the input had none. */
  datatype Attachment = Attachment(filePath: string, filename: string, timestamp: Option<int>)

  /** An attachment with this filename is stored. */
  predicate HasFilename(list: seq<Attachment>, name: string)
  {
    exists i :: 0 <= i < |list| && list[i].filename == name
  }

  /** One step of `add_attachments`: skipped when the filename is already
      stored, appended otherwise. */
  function AddAttachment(list: seq<Attachment>, a: AttachmentInput): seq<Attachment>
  {
    var name := a.filename.GetOr("");
    if HasFilename(list, name) then list
    else list + [Attachment(a.filePath.GetOr(""), name, a.timestamp)]
  }

  /** `add_attachments` over all inputs, in order. */
  function AddAttachments(list: seq<Attachment>, inputs: seq<AttachmentInput>): seq<Attachment>
  {
    if inputs == [] then list
    else AddAttachment(AddAttachments(list, inputs[..|inputs| - 1]), inputs[|inputs| - 1])
  }

  /** Stored filenames are distinct. */
  predicate UniqueNames(list: seq<Attachment>)
  {
    forall i, j :: 0 <= i < j < |list| ==> list[i].filename != list[j].filename
  }

  /** The old list is kept as a prefix, filenames stay distinct, every
      input's filename ends up stored, and nothing else is added. */
  lemma {:induction false} AddAttachmentsSpec(list: seq<Attachment>, inputs: seq<AttachmentInput>)
    ensures |list| <= |AddAttachments(list, inputs)| && AddAttachments(list, inputs)[..|list|] == list
    ensures UniqueNames(list) ==> UniqueNames(AddAttachments(list, inputs))
    ensures forall j :: 0 <= j < |inputs| ==> HasFilename(AddAttachments(list, inputs), inputs[j].filename.GetOr(""))
    ensures forall name :: HasFilename(AddAttachments(list, inputs), name) ==>
              HasFilename(list, name) || exists j :: 0 <= j < |inputs| && inputs[j].filename.GetOr("") == name
    decreases |inputs|
  {
    if inputs != [] {
      var p := inputs[..|inputs| - 1];
      var x := inputs[|inputs| - 1];
      AddAttachmentsSpec(list, p);
      var before := AddAttachments(list, p);
      var r := AddAttachments(list, inputs);
      assert r == AddAttachment(before, x);
      var name := x.filename.GetOr("");
      if !HasFilename(before, name) {
        assert r == before + [Attachment(x.filePath.GetOr(""), name, x.timestamp)];
        assert r[..|list|] == before[..|list|];
        assert r[|before|].filename == name;
        forall n | HasFilename(before, n) ensures HasFilename(r, n) {
          var i :| 0 <= i < |before| && before[i].filename == n;
          assert r[i] == before[i];
        }
      }
      forall j | 0 <= j < |inputs| ensures HasFilename(r, inputs[j].filename.GetOr("")) {
        if j < |p| { assert inputs[j] == p[j]; }
      }
      forall n | HasFilename(r, n)
        ensures HasFilename(list, n) || exists j :: 0 <= j < |inputs| && inputs[j].filename.GetOr("") == n
      {
        if !HasFilename(before, n) {
          assert n == name;
          assert inputs[|inputs| - 1].filename.GetOr("") == n;
        } else if !HasFilename(list, n) {
          var j :| 0 <= j < |p| && p[j].filename.GetOr("") == n;
          assert inputs[j] == p[j];
        }
      }
    }
  }

  /** Inputs whose filenames are all stored already change nothing. */
  lemma {:induction false} AddAttachmentsKnown(list: seq<Attachment>, inputs: seq<AttachmentInput>)
    requires forall j :: 0 <= j < |inputs| ==> HasFilename(list, inputs[j].filename.GetOr(""))
    ensures AddAttachments(list, inputs) == list
    decreases |inputs|
  {
    if inputs != [] {
      var p := inputs[..|inputs| - 1];
      forall j | 0 <= j < |p| ensures HasFilename(list, p[j].filename.GetOr("")) {
        assert p[j] == inputs[j];
      }
      AddAttachmentsKnown(list, p);
    }
  }

  /** Adding the same attachments a second time changes nothing. */
  lemma AddAttachmentsIdempotent(list: seq<Attachment>, inputs: seq<AttachmentInput>)
    ensures AddAttachments(AddAttachments(list, inputs), inputs) == AddAttachments(list, inputs)
  {
    AddAttachmentsSpec(list, inputs);
    AddAttachmentsKnown(AddAttachments(list, inputs), inputs);
  }

  class AYTextBox {
    var categories: seq<TextBox.CategoryItem>
    var category: string
    /** `_attachments`. */
    var attachments: seq<Attachment>
    /** How many times the attachment display was rebuilt. */
    var refreshes: nat
    /** `comment_submitted` payloads: the markdown and the category. */
    var submissions: seq<(string, string)>
    /** `show_categories`: whether the category combo box exists. */
    const showCategories: bool

    constructor (showCategories: bool)
      ensures this.showCategories == showCategories
      ensures categories == TextBox.CategoryItems([]) && category == "No category"
      ensures attachments == [] && refreshes == 0 && submissions == []
    {
      this.showCategories := showCategories;
      categories := TextBox.CategoryItems([]);
      category := TextBox.CategoryItems([])[0].text;
      attachments := [];
      refreshes := 0;
      submissions := [];
    }

    /** `add_attachments`: an attachment whose filename is already stored
        is skipped; the display is rebuilt once, only if something was
        added. */
    method AddAttachmentsTo(inputs: seq<AttachmentInput>)
      modifies this
      ensures attachments == AddAttachments(old(attachments), inputs)
      ensures refreshes == old(refreshes) + if |attachments| > |old(attachments)| then 1 else 0
      ensures category == old(category) && categories == old(categories) && submissions == old(submissions)
    {
      if inputs == [] {
        return;
      }
      var added := 0;
      for i := 0 to |inputs|
        invariant attachments == AddAttachments(old(attachments), inputs[..i])
        invariant |attachments| == |old(attachments)| + added && refreshes == old(refreshes)
        invariant category == old(category) && categories == old(categories) && submissions == old(submissions)
      {
        assert inputs[..i + 1][..i] == inputs[..i];
        var name := inputs[i].filename.GetOr("");
        var exists_ := false;
        for j := 0 to |attachments|
          invariant exists_ <==> exists k :: 0 <= k < j && attachments[k].filename == name
        {
          if attachments[j].filename == name {
            exists_ := true;
          }
        }
        if exists_ {
          continue;
        }
        attachments := attachments + [Attachment(inputs[i].filePath.GetOr(""), name, inputs[i].timestamp)];
        added := added + 1;
      }
      assert inputs[..|inputs|] == inputs;
      if added > 0 {
        refreshes := refreshes + 1;
      }
    }

    /** `_on_attachment_removed`: pops only an index in range. */
    method OnAttachmentRemoved(index: int)
      modifies this
      ensures 0 <= index < |old(attachments)| ==>
                attachments == old(attachments)[..index] + old(attachments)[index + 1..]
                && refreshes == old(refreshes) + 1
      ensures !(0 <= index < |old(attachments)|) ==> attachments == old(attachments) && refreshes == old(refreshes)
      ensures category == old(category) && categories == old(categories) && submissions == old(submissions)
    {
      if 0 <= index < |attachments| {
        attachments := attachments[..index] + attachments[index + 1..];
        refreshes := refreshes + 1;
      }
    }

    /** `_on_comment_clicked`: emits the markdown and the category, then
        clears the list. */
    method OnCommentClicked(markdown: string)
      modifies this
      ensures submissions == old(submissions) + [(markdown, old(category))]
      ensures attachments == [] && refreshes == old(refreshes) + 1
      ensures category == old(category) && categories == old(categories)
    {
      submissions := submissions + [(markdown, category)];
      ClearAttachments();
    }

    /** `clear_attachments`. */
    method ClearAttachments()
      modifies this
      ensures attachments == [] && refreshes == old(refreshes) + 1
      ensures category == old(category) && categories == old(categories) && submissions == old(submissions)
    {
      attachments := [];
      refreshes := refreshes + 1;
    }

    /** `_on_category_changed`. */
    method OnCategoryChanged(c: string)
      modifies this
      ensures category == c && categories == old(categories)
      ensures attachments == old(attachments) && refreshes == old(refreshes) && submissions == old(submissions)
    {
      category := c;
    }

    /** `on_ctlr_project_changed`: the category items come from the
        project. With the combo box shown, the call `update_items(...)`
        passes a list to a method of this combo box that takes none, so it
        raises `TypeError`; the items are already replaced by then, the
        chosen category stays and the user list is not reached. */
    method OnProjectChanged(cats: seq<TextBox.CommentCategory>) returns (raised: Option<string>)
      modifies this
      ensures raised == if showCategories then Some("TypeError") else None
      ensures categories == TextBox.CategoryItems(cats) && category == old(category)
      ensures attachments == old(attachments) && refreshes == old(refreshes) && submissions == old(submissions)
    {
      categories := TextBox.CategoryItems(cats);
      if showCategories {
        return Some("TypeError");
      }
      return None;
    }
  }
}
