/** The activity stream `AYActivityStream`: the comments, publishes and
    status changes of a version, filtered by the selected category, or the
    version's attributes in the `"details"` view. Comments can be added and
    deleted; a change of project or version clears the stream. */
module ActivityStream {
  import opened Wrappers
  import ODict

  /** The three activity models; dataclass equality compares every field. */
  datatype Activity =
    | Comment(activityId: string, userFullName: string, userName: string, userSrc: string,
              comment: string, category: string, categoryColor: string, commentDate: string)
    | Publish(activityId: string, userFullName: string, userName: string, userSrc: string,
              version: string, product: string, date: string)
    | StatusChange(activityId: string, userFullName: string, userName: string, userSrc: string,
                   product: string, version: string, oldStatus: string, newStatus: string, date: string)
  {
    /** The model's `type` field. */
    function Type(): string
    {
      match this
      case Comment(_, _, _, _, _, _, _, _) => "comment"
      case Publish(_, _, _, _, _, _, _) => "version.publish"
      case StatusChange(_, _, _, _, _, _, _, _, _) => "status.change"
    }
  }

  datatype User = User(name: string, shortName: string, fullName: string, email: string)

  /** A comment category of the project: its name and colour. */
  datatype CommentCategory = CommentCategory(name: string, color: string)

  datatype Project = Project(projectName: string, users: seq<User>, categories: seq<CommentCategory>,
                             currentUser: Option<User>)

  datatype Version = Version(id: string, attrib: ODict.Dict<string, string>)

  /** `ProjectData.not_set()`. */
  const ProjectNotSet: Project := Project("PROJECT NOT SET", [], [], None)

  /** `VersionData.not_set()`. */
  const VersionNotSet: Version := Version("VERSION NOT SET", [])

  /** The items of the stream container: one view per activity, the
      attribute form of the details view, or the closing stretch. */
  datatype Widget =
    | CommentView(data: Activity)
    | PublishView(data: Activity)
    | StatusView(data: Activity)
    | AttributeForm(rows: seq<(string, string)>)
    | Stretch

  /** The exception `on_comment_submitted` and the deletion raise. */
  datatype StreamError = ValueError(message: string)

  /** The messages of the two `ValueError`s `on_comment_submitted` can
      raise. `list.index` names the missing category by its `repr`, which
      is the category in single quotes unless the category itself holds a
      quote or a character that `repr` escapes. */
  function UnknownCategory(category: string): string
  {
    "'" + category + "' is not in list"
  }

  const NoCurrentUser: string := "current_user MUST be provided !"

  /** The category that shows the attributes instead of the activities. */
  const Details: string := "details"

  /** `category not in {"all", event.type}`, negated. */
  predicate Matches(category: string, act: Activity)
  {
    category == "all" || category == act.Type()
  }

  /** The activities the category shows, in list order. */
  function Visible(category: string, acts: seq<Activity>): seq<Activity>
  {
    if acts == [] then []
    else
      var n := |acts| - 1;
      Visible(category, acts[..n]) + if Matches(category, acts[n]) then [acts[n]] else []
  }

  /** One more activity: shown at the end exactly when it matches. */
  lemma VisibleSnoc(category: string, s: seq<Activity>, x: Activity)
    ensures Visible(category, s + [x]) == Visible(category, s) + if Matches(category, x) then [x] else []
  {
    assert (s + [x])[..|s|] == s;
  }

  /** Only activities the category matches are shown, each taken from the
      list, and no more than the list holds. */
  lemma {:induction false} VisibleSound(category: string, acts: seq<Activity>)
    ensures |Visible(category, acts)| <= |acts|
    ensures forall x :: x in Visible(category, acts) ==> x in acts && Matches(category, x)
    decreases |acts|
  {
    if acts != [] {
      var n := |acts| - 1;
      VisibleSound(category, acts[..n]);
      assert forall x :: x in acts[..n] ==> x in acts;
    }
  }

  /** Every matching activity is shown. */
  lemma {:induction false} VisibleComplete(category: string, acts: seq<Activity>)
    ensures forall x :: x in acts && Matches(category, x) ==> x in Visible(category, acts)
    decreases |acts|
  {
    if acts != [] {
      var n := |acts| - 1;
      VisibleComplete(category, acts[..n]);
      forall x | x in acts && Matches(category, x) ensures x in Visible(category, acts) {
        if x != acts[n] {
          var k :| 0 <= k < |acts| && acts[k] == x;
          assert acts[..n][k] == x;
        }
      }
    }
  }

  /** `"all"` shows the whole list, unchanged. */
  lemma {:induction false} VisibleAll(acts: seq<Activity>)
    ensures Visible("all", acts) == acts
    decreases |acts|
  {
    if acts != [] {
      var n := |acts| - 1;
      VisibleAll(acts[..n]);
      assert acts[..n] + [acts[n]] == acts;
    }
  }

  /** Filtering distributes over concatenation, so the order of the list
      is kept. */
  lemma {:induction false} VisibleAppend(category: string, a: seq<Activity>, b: seq<Activity>)
    ensures Visible(category, a + b) == Visible(category, a) + Visible(category, b)
    decreases |b|
  {
    if b == [] {
      assert a + b == a;
    } else {
      var n := |b| - 1;
      var tail := if Matches(category, b[n]) then [b[n]] else [];
      assert a + b == (a + b[..n]) + [b[n]];
      VisibleSnoc(category, a + b[..n], b[n]);
      assert b == b[..n] + [b[n]];
      VisibleSnoc(category, b[..n], b[n]);
      VisibleAppend(category, a, b[..n]);
      assert (Visible(category, a) + Visible(category, b[..n])) + tail
          == Visible(category, a) + (Visible(category, b[..n]) + tail);
    }
  }

  /** The widget the stream builds for an activity. */
  function View(act: Activity): Widget
  {
    match act
    case Comment(_, _, _, _, _, _, _, _) => CommentView(act)
    case Publish(_, _, _, _, _, _, _) => PublishView(act)
    case StatusChange(_, _, _, _, _, _, _, _, _) => StatusView(act)
  }

  /** One view per activity, in order. */
  function Views(acts: seq<Activity>): (r: seq<Widget>)
    ensures |r| == |acts|
    ensures forall i :: 0 <= i < |acts| ==> r[i] == View(acts[i])
  {
    if acts == [] then [] else Views(acts[..|acts| - 1]) + [View(acts[|acts| - 1])]
  }

  /** The details form: a row per attribute, in the attribute dictionary's
      order. */
  function DetailsForm(version: Version): Widget
  {
    AttributeForm(version.attrib)
  }

  /** The first category with the given name, like `keys.index(category)`. */
  function FindCategory(cats: seq<CommentCategory>, name: string): (r: Option<nat>)
    ensures r.Some? ==> r.value < |cats| && cats[r.value].name == name
                        && forall j :: 0 <= j < r.value ==> cats[j].name != name
    ensures r.None? ==> forall j :: 0 <= j < |cats| ==> cats[j].name != name
  {
    if cats == [] then None
    else if cats[0].name == name then Some(0)
    else
      match FindCategory(cats[1..], name)
      case None => None
      case Some(k) => Some(k + 1)
  }

  /** The comment `on_comment_submitted` adds: an unknown category fails
      first, then a missing current user; otherwise a comment by the
      current user with the category's colour. */
  function Submitted(project: Project, markdown: string, category: string, now: string): (r: Result<Activity, StreamError>)
    ensures (forall j :: 0 <= j < |project.categories| ==> project.categories[j].name != category) ==>
              r == Err(ValueError(UnknownCategory(category)))
    ensures ((exists j :: 0 <= j < |project.categories| && project.categories[j].name == category)
             && project.currentUser.None?) ==> r == Err(ValueError(NoCurrentUser))
    ensures r.Ok? <==> (exists j :: 0 <= j < |project.categories| && project.categories[j].name == category)
                       && project.currentUser.Some?
    ensures r.Ok? ==> r.value.Comment? && r.value.category == category && r.value.comment == markdown
                      && r.value.userName == project.currentUser.value.name
                      && r.value.userFullName == project.currentUser.value.fullName
                      && exists j :: 0 <= j < |project.categories| && project.categories[j].name == category
                                     && r.value.categoryColor == project.categories[j].color
                                     && forall k :: 0 <= k < j ==> project.categories[k].name != category
  {
    match FindCategory(project.categories, category)
    case None => Err(ValueError(UnknownCategory(category)))
    case Some(i) =>
      if project.currentUser.None? then Err(ValueError(NoCurrentUser))
      else
        var user := project.currentUser.value;
        Ok(Comment("", user.fullName, user.name, "", markdown, category, project.categories[i].color, now))
  }

  /** The first position holding `w`. */
  function IndexOf<T(==)>(s: seq<T>, w: T): (r: Option<nat>)
    ensures r.Some? ==> r.value < |s| && s[r.value] == w && forall j :: 0 <= j < r.value ==> s[j] != w
    ensures r.None? ==> w !in s
  {
    if s == [] then None
    else if s[0] == w then Some(0)
    else
      match IndexOf(s[1..], w)
      case None => None
      case Some(k) => Some(k + 1)
  }

  /** `list.remove(x)`: drops the first occurrence. */
  function RemoveFirst<T(==)>(s: seq<T>, x: T): seq<T>
    requires x in s
  {
    var i := IndexOf(s, x).value;
    s[..i] + s[i + 1..]
  }

  /** Removing takes away exactly one occurrence of `x` and nothing else. */
  lemma RemoveFirstSpec<T>(s: seq<T>, x: T)
    requires x in s
    ensures |RemoveFirst(s, x)| == |s| - 1
    ensures multiset(RemoveFirst(s, x)) == multiset(s) - multiset{x}
  {
    var i := IndexOf(s, x).value;
    assert s == s[..i] + [x] + s[i + 1..];
    assert multiset(s) == multiset(s[..i]) + multiset{x} + multiset(s[i + 1..]);
  }

  class AYActivityStream {
    /** `_project`. */
    var project: Project
    /** `_version`. */
    var version: Version
    /** `_activities.activity_list`. */
    var activities: seq<Activity>
    /** `_category`. */
    var category: string
    /** The items of the stream container, in order. */
    var shown: seq<Widget>
    /** The models carried by the `comment_deleted` signal, in order. */
    var deleted: seq<Activity>

    /** The container's last item is the attribute form in the details
        view and the stretch in any other view; new comments go just before
        it. */
    predicate Valid()
      reads this
    {
      shown != []
      && if category == Details then shown[|shown| - 1].AttributeForm? else shown[|shown| - 1] == Stretch
    }

    /** A new stream shows nothing but the stretch (or an empty form in the
        details view). */
    constructor (category: string)
      ensures Valid()
      ensures project == ProjectNotSet && version == VersionNotSet && activities == []
      ensures this.category == category && deleted == []
      ensures shown == if category == Details then [DetailsForm(VersionNotSet)] else [Stretch]
    {
      project := ProjectNotSet;
      version := VersionNotSet;
      activities := [];
      this.category := category;
      shown := [];
      deleted := [];
      new;
      UpdateStream(category, []);
    }

    /** `update_stream`: the details view shows the attribute form and
        keeps the stored activities; any other view shows the matching
        activities in order, then the stretch, and stores the new list. */
    method UpdateStream(category: string, acts: seq<Activity>)
      modifies this
      ensures Valid()
      ensures project == old(project) && version == old(version) && deleted == old(deleted)
      ensures this.category == category
      ensures category == Details ==> shown == [DetailsForm(version)] && activities == old(activities)
      ensures category != Details ==> shown == Views(Visible(category, acts)) + [Stretch] && activities == acts
    {
      this.category := category;
      if category == Details {
        shown := [DetailsForm(version)];
        return;
      }
      var built := BuildViews(category, acts);
      shown := built + [Stretch];
      activities := acts;
    }

    /** `_clear_stream`: the current view over an empty list. */
    method ClearStream()
      modifies this
      ensures Valid()
      ensures project == old(project) && version == old(version) && deleted == old(deleted) && category == old(category)
      ensures category == Details ==> shown == [DetailsForm(version)] && activities == old(activities)
      ensures category != Details ==> shown == [Stretch] && activities == []
    {
      UpdateStream(category, []);
    }

    /** `_on_view_changed`: the new view over the stored activities. */
    method OnViewChanged(category: string)
      modifies this
      ensures Valid()
      ensures project == old(project) && version == old(version) && deleted == old(deleted)
      ensures this.category == category && activities == old(activities)
      ensures category == Details ==> shown == [DetailsForm(version)]
      ensures category != Details ==> shown == Views(Visible(category, activities)) + [Stretch]
    {
      UpdateStream(category, activities);
    }

    /** `on_comment_submitted`: on success the new comment's view goes just
        before the container's last item and the comment is appended to
        the activities. */
    method OnCommentSubmitted(markdown: string, category: string, now: string) returns (r: Result<(), StreamError>)
      requires Valid()
      modifies this
      ensures Valid()
      ensures project == old(project) && version == old(version) && deleted == old(deleted)
      ensures this.category == old(this.category)
      ensures Submitted(project, markdown, category, now).Err? ==>
                r == Err(Submitted(project, markdown, category, now).error)
                && shown == old(shown) && activities == old(activities)
      ensures Submitted(project, markdown, category, now).Ok? ==>
                var m := Submitted(project, markdown, category, now).value;
                var idx := |old(shown)| - 1;
                r == Ok(()) && activities == old(activities) + [m]
                && shown == old(shown)[..idx] + [CommentView(m)] + old(shown)[idx..]
    {
      var found := FindCategory(project.categories, category);
      if found.None? {
        return Err(ValueError(UnknownCategory(category)));
      }
      var cat := project.categories[found.value];
      if project.currentUser.None? {
        return Err(ValueError(NoCurrentUser));
      }
      var user := project.currentUser.value;
      var m := Comment("", user.fullName, user.name, "", markdown, category, cat.color, now);
      var idx := |shown| - 1;
      shown := shown[..idx] + [CommentView(m)] + shown[idx..];
      activities := activities + [m];
      r := Ok(());
    }

    /** `_on_comment_deleted`: the first view of an equal comment is
        removed, and the first equal activity with it; the signal is
        emitted whether or not a view matched. A matching view whose
        comment is no longer in the list makes `list.remove` raise, after
        the view is gone and before the signal. */
    method OnCommentDeleted(data: Activity) returns (r: Result<(), StreamError>)
      requires Valid()
      modifies this
      ensures Valid()
      ensures project == old(project) && version == old(version) && category == old(category)
      ensures IndexOf(old(shown), CommentView(data)).None? ==>
                r == Ok(()) && shown == old(shown) && activities == old(activities)
                && deleted == old(deleted) + [data]
      ensures IndexOf(old(shown), CommentView(data)).Some? ==>
                var i := IndexOf(old(shown), CommentView(data)).value;
                shown == old(shown)[..i] + old(shown)[i + 1..]
                && (data in old(activities) ==>
                      r == Ok(()) && activities == RemoveFirst(old(activities), data)
                      && deleted == old(deleted) + [data])
                && (data !in old(activities) ==>
                      r.Err? && activities == old(activities) && deleted == old(deleted))
    {
      var i := 0;
      while i < |shown|
        invariant 0 <= i <= |shown|
        invariant shown == old(shown) && activities == old(activities) && deleted == old(deleted)
        invariant forall j :: 0 <= j < i ==> shown[j] != CommentView(data)
      {
        if shown[i] == CommentView(data) {
          assert IndexOf(shown, CommentView(data)) == Some(i);
          assert i < |shown| - 1;
          shown := shown[..i] + shown[i + 1..];
          assert shown[|shown| - 1] == old(shown)[|old(shown)| - 1];
          if data !in activities {
            return Err(ValueError("list.remove(x): x not in list"));
          }
          activities := RemoveFirst(activities, data);
          break;
        }
        i := i + 1;
      }
      deleted := deleted + [data];
      r := Ok(());
    }

    /** `on_project_changed`: a different project name clears the stream;
        the new project is stored either way. */
    method OnProjectChanged(data: Project)
      requires Valid()
      modifies this
      ensures Valid()
      ensures project == data && version == old(version) && category == old(category) && deleted == old(deleted)
      ensures old(project).projectName == data.projectName ==> shown == old(shown) && activities == old(activities)
      ensures old(project).projectName != data.projectName && category != Details ==>
                shown == [Stretch] && activities == []
      ensures old(project).projectName != data.projectName && category == Details ==>
                shown == [DetailsForm(version)] && activities == old(activities)
    {
      if project.projectName != data.projectName {
        ClearStream();
      }
      project := data;
    }

    /** `on_version_data_changed`: a different version id clears the
        stream; the new version is stored either way, after the clearing,
        so a details view is rebuilt from the previous version. */
    method OnVersionDataChanged(data: Version)
      requires Valid()
      modifies this
      ensures Valid()
      ensures version == data && project == old(project) && category == old(category) && deleted == old(deleted)
      ensures old(version).id == data.id ==> shown == old(shown) && activities == old(activities)
      ensures old(version).id != data.id && category != Details ==> shown == [Stretch] && activities == []
      ensures old(version).id != data.id && category == Details ==>
                shown == [DetailsForm(old(version))] && activities == old(activities)
    {
      if version.id != data.id {
        ClearStream();
      }
      version := data;
    }
  }

  /** The loop of `update_stream`: a widget for each matching activity, in
      order. */
  method BuildViews(category: string, acts: seq<Activity>) returns (built: seq<Widget>)
    ensures built == Views(Visible(category, acts))
  {
    built := [];
    for i := 0 to |acts|
      invariant built == Views(Visible(category, acts[..i]))
    {
      assert acts[..i + 1] == acts[..i] + [acts[i]];
      VisibleSnoc(category, acts[..i], acts[i]);
      if Matches(category, acts[i]) {
        ViewsSnoc(Visible(category, acts[..i]), acts[i]);
        built := built + [View(acts[i])];
      } else {
        assert Visible(category, acts[..i + 1]) == Visible(category, acts[..i]) + [];
      }
    }
    assert acts[..|acts|] == acts;
  }

  /** One more activity: one more widget at the end. */
  lemma ViewsSnoc(s: seq<Activity>, x: Activity)
    ensures Views(s + [x]) == Views(s) + [View(x)]
  {
    assert (s + [x])[..|s|] == s;
  }

  /** Views distribute over concatenation. */
  lemma {:induction false} ViewsAppend(a: seq<Activity>, b: seq<Activity>)
    ensures Views(a + b) == Views(a) + Views(b)
  {
    assert |Views(a + b)| == |Views(a) + Views(b)|;
    forall i | 0 <= i < |a + b| ensures Views(a + b)[i] == (Views(a) + Views(b))[i] {
      if i < |a| {
        assert (a + b)[i] == a[i];
      } else {
        assert (a + b)[i] == b[i - |a|];
      }
    }
  }
}
