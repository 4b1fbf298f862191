/** The detail panel `AYDetailPanel`: it shows the entity path, the product
    name and a combo box of the project's statuses for the current version.
    Its updates run with the signals of the widget they change blocked, so
    that the controller's own changes are not echoed back as user edits. */
module DetailPanel {
  import opened Wrappers
  import opened Text
  import EntityPath

  /** A status entry of the project anatomy, a dictionary of strings. */
  type Record = map<string, string>

  /** The combo box item built from a status. */
  datatype StatusItem = StatusItem(text: string, shortText: string, icon: string, color: string)

  /** The key whose lookup failed. */
  datatype KeyError = KeyError(key: string)

  /** `MISSING_STATUSES`: what the combo box offers when the anatomy has no
      statuses. */
  const MissingStatuses: seq<Record> := [
    map["name" := "No Project", "original_name" := "No Project", "shortName" := "NPR",
        "state" := "no_project", "icon" := "question_mark", "color" := "#9B7C76"]
  ]

  /** The project data the panel reads: its name and, when the anatomy has
      a `"statuses"` entry, that entry. */
  datatype Project = Project(projectName: string, anatomyStatuses: Option<seq<Record>>)

  /** The version data the panel reads. */
  datatype Version = Version(id: string, status: string, productName: string, taskName: string, folderPath: string)

  /** `ProjectData.not_set()`: an empty anatomy. */
  const ProjectNotSet: Project := Project("PROJECT NOT SET", None)

  /** `VersionData.not_set()`. */
  const VersionNotSet: Version :=
    Version("VERSION NOT SET", "VERSION NOT SET", "VERSION NOT SET", "VERSION NOT SET", "VERSION NOT SET")

  /** The four keys a status must have, in the order they are read. */
  const StatusKeys: seq<string> := ["name", "shortName", "icon", "color"]

  predicate HasStatusKeys(s: Record)
  {
    "name" in s && "shortName" in s && "icon" in s && "color" in s
  }

  /** One item of the comprehension: the keys are read in order, so the
      first missing one is reported. */
  function StatusItemOf(s: Record): (r: Result<StatusItem, KeyError>)
    ensures r.Ok? <==> HasStatusKeys(s)
    ensures r.Ok? ==> r.value == StatusItem(s["name"], s["shortName"], s["icon"], s["color"])
    ensures r.Err? ==> r.error.key in StatusKeys && r.error.key !in s
                       && forall j :: 0 <= j < |StatusKeys| && StatusKeys[j] == r.error.key ==>
                            forall k :: 0 <= k < j ==> StatusKeys[k] in s
  {
    if "name" !in s then Err(KeyError("name"))
    else if "shortName" !in s then Err(KeyError("shortName"))
    else if "icon" !in s then Err(KeyError("icon"))
    else if "color" !in s then Err(KeyError("color"))
    else Ok(StatusItem(s["name"], s["shortName"], s["icon"], s["color"]))
  }

  /** The comprehension over the statuses, in order; the first status that
      lacks a key stops it. */
  function StatusItems(statuses: seq<Record>): (r: Result<seq<StatusItem>, KeyError>)
    ensures r.Ok? <==> forall i :: 0 <= i < |statuses| ==> HasStatusKeys(statuses[i])
    ensures r.Ok? ==> |r.value| == |statuses|
                      && forall i :: 0 <= i < |statuses| ==> StatusItemOf(statuses[i]) == Ok(r.value[i])
    ensures r.Err? ==> exists i :: 0 <= i < |statuses| && StatusItemOf(statuses[i]) == Err(r.error)
                                   && forall j :: 0 <= j < i ==> HasStatusKeys(statuses[j])
  {
    if statuses == [] then Ok([])
    else
      match StatusItemOf(statuses[0])
      case Err(e) => Err(e)
      case Ok(item) =>
        match StatusItems(statuses[1..])
        case Err(e) =>
          assert forall i :: 1 <= i < |statuses| ==> statuses[1..][i - 1] == statuses[i];
          Err(e)
        case Ok(items) =>
          assert forall i :: 1 <= i < |statuses| ==> statuses[1..][i - 1] == statuses[i];
          Ok([item] + items)
  }

  /** The statuses `_get_statuses` reads: the anatomy's, else the missing
      placeholder. */
  function Statuses(project: Project): seq<Record>
  {
    project.anatomyStatuses.GetOr(MissingStatuses)
  }

  /** `_get_statuses`. */
  function GetStatuses(project: Project): Result<seq<StatusItem>, KeyError>
  {
    StatusItems(Statuses(project))
  }

  /** Without statuses in the anatomy the combo box offers the single
      `"No Project"` status. */
  lemma MissingStatusesItem(project: Project)
    requires project.anatomyStatuses.None?
    ensures GetStatuses(project) == Ok([StatusItem("No Project", "NPR", "question_mark", "#9B7C76")])
  {
    var s := MissingStatuses[0];
    assert StatusItemOf(s) == Ok(StatusItem("No Project", "NPR", "question_mark", "#9B7C76"));
    assert MissingStatuses[1..] == [];
    assert StatusItems(MissingStatuses[1..]) == Ok([]);
    assert Statuses(project) == MissingStatuses;
    var item := StatusItem("No Project", "NPR", "question_mark", "#9B7C76");
    assert StatusItems(MissingStatuses) == Ok([item] + []);
    assert [item] + [] == [item];
    assert GetStatuses(project) == StatusItems(MissingStatuses);
  }

  /** The path `_update_entity_path` shows: project, folder path and task,
      joined by `"/"`. */
  function PathText(project: Project, version: Version): (r: string)
    ensures SplitOn(r, '/') == SplitOn(project.projectName, '/') + SplitOn(version.folderPath, '/')
                               + SplitOn(version.taskName, '/')
  {
    var r := project.projectName + "/" + version.folderPath + "/" + version.taskName;
    SplitOnAppend(project.projectName, version.folderPath, '/');
    SplitOnAppend(project.projectName + "/" + version.folderPath, version.taskName, '/');
    r
  }

  /** With no `"/"` inside the three names the path has exactly those three
      segments. */
  lemma PathSegments(project: Project, version: Version)
    requires '/' !in project.projectName && '/' !in version.folderPath && '/' !in version.taskName
    ensures SplitOn(PathText(project, version), '/') == [project.projectName, version.folderPath, version.taskName]
  {
    SplitOnNone(project.projectName, '/');
    SplitOnNone(version.folderPath, '/');
    SplitOnNone(version.taskName, '/');
  }

  /** The product label: the product name, or `"Not available"` for an
      empty one. */
  function ProductText(version: Version): (r: string)
    ensures r != []
    ensures version.productName != [] ==> r == version.productName
    ensures version.productName == [] ==> r == "Not available"
  {
    if version.productName != [] then version.productName else "Not available"
  }

  /** The status combo box (`QComboBox`, not editable): its items, its
      current text, whether its signals are blocked and the texts its
      `currentTextChanged` signal has carried to `version_status_changed`. */
  class StatusCombo {
    var items: seq<StatusItem>
    var current: string
    var blocked: bool
    var emitted: seq<string>

    /** A combo box with items starts on the first one. */
    constructor (items: seq<StatusItem>)
      ensures this.items == items && current == (if items == [] then "" else items[0].text)
      ensures !blocked && emitted == []
    {
      this.items := items;
      current := if items == [] then "" else items[0].text;
      blocked := false;
      emitted := [];
    }

    /** `blockSignals`. */
    method BlockSignals(b: bool)
      modifies this
      ensures blocked == b
      ensures items == old(items) && current == old(current) && emitted == old(emitted)
    {
      blocked := b;
    }

    /** A change of the current text; the signal fires only when the text
        changes and signals are not blocked. */
    method SetCurrent(t: string)
      modifies this
      ensures current == t && items == old(items) && blocked == old(blocked)
      ensures emitted == old(emitted) + if !blocked && t != old(current) then [t] else []
    {
      if !blocked && t != current {
        emitted := emitted + [t];
      }
      current := t;
    }

    /** `update_items`: a non-empty list replaces the items, and the
        combo box shows the first of them. */
    method UpdateItems(list: seq<StatusItem>)
      modifies this
      ensures list != [] ==> items == list && current == list[0].text
      ensures list == [] ==> items == old(items) && current == old(current)
      ensures blocked == old(blocked)
      ensures blocked ==> emitted == old(emitted)
    {
      if list != [] {
        items := list;
        SetCurrent(list[0].text);
      }
    }

    /** `setCurrentIndex`: out-of-range indices change nothing. */
    method SetCurrentIndex(i: int)
      modifies this
      ensures 0 <= i < |items| ==> current == items[i].text
      ensures !(0 <= i < |items|) ==> current == old(current)
      ensures items == old(items) && blocked == old(blocked)
      ensures blocked ==> emitted == old(emitted)
    {
      if 0 <= i < |items| {
        SetCurrent(items[i].text);
      }
    }

    /** `setCurrentText` on a combo box that is not editable: only the text
        of an item can become current. */
    method SetCurrentText(t: string)
      modifies this
      ensures (exists i :: 0 <= i < |items| && items[i].text == t) ==> current == t
      ensures (forall i :: 0 <= i < |items| ==> items[i].text != t) ==> current == old(current)
      ensures items == old(items) && blocked == old(blocked)
      ensures blocked ==> emitted == old(emitted)
    {
      var i := 0;
      while i < |items| && items[i].text != t
        invariant 0 <= i <= |items|
        invariant forall j :: 0 <= j < i ==> items[j].text != t
      {
        i := i + 1;
      }
      if i < |items| {
        SetCurrent(t);
      }
    }
  }

  class AYDetailPanel {
    /** `_project`. */
    var project: Project
    /** `_version_data`. */
    var version: Version
    /** The status combo box. */
    const status: StatusCombo
    /** The entity path widget. */
    const entityPath: EntityPath.AYEntityPath
    /** Whether the entity path widget's signals are blocked. */
    var pathBlocked: bool
    /** The text of the product name label. */
    var productText: string

    /** The panel starts with unset project and version data, the missing
        placeholder status and the entity path widget's initial path. */
    constructor (normpath: string -> string)
      ensures project == ProjectNotSet && version == VersionNotSet
      ensures fresh(status) && status.items == [StatusItem("No Project", "NPR", "question_mark", "#9B7C76")]
      ensures status.current == "No Project" && !status.blocked && status.emitted == []
      ensures fresh(entityPath) && entityPath.normpath == normpath && entityPath.path == EntityPath.InitialPath
      ensures !pathBlocked && productText == "product name"
    {
      project := ProjectNotSet;
      version := VersionNotSet;
      entityPath := new EntityPath.AYEntityPath(normpath);
      MissingStatusesItem(ProjectNotSet);
      var items := GetStatuses(ProjectNotSet).value;
      status := new StatusCombo(items);
      pathBlocked := false;
      productText := "product name";
    }

    /** `_update_status_items` under `block_signals("status")`: the items
        come from `_get_statuses` and the first becomes current, without a
        signal. A status lacking a key raises before the signals are
        unblocked, so they stay blocked. */
    method UpdateStatusItems() returns (r: Result<(), KeyError>)
      modifies status
      ensures status.emitted == old(status.emitted)
      ensures GetStatuses(project).Err? ==>
                r == Err(GetStatuses(project).error) && status.blocked
                && status.items == old(status.items) && status.current == old(status.current)
      ensures GetStatuses(project).Ok? ==>
                r == Ok(()) && !status.blocked
                && var list := GetStatuses(project).value;
                   (list != [] ==> status.items == list && status.current == list[0].text)
                   && (list == [] ==> status.items == old(status.items)
                                      && status.current == (if old(status.items) == [] then old(status.current)
                                                            else old(status.items)[0].text))
    {
      status.BlockSignals(true);
      var got := GetStatuses(project);
      if got.Err? {
        return Err(got.error);
      }
      status.UpdateItems(got.value);
      status.SetCurrentIndex(0);
      status.BlockSignals(false);
      r := Ok(());
    }

    /** `_update_status` under `block_signals("status")`: a non-empty
        version status becomes the current text when it is one of the
        items; no signal is emitted either way. */
    method UpdateStatus()
      modifies status
      ensures !status.blocked && status.emitted == old(status.emitted) && status.items == old(status.items)
      ensures (version.status != [] && exists i :: 0 <= i < |status.items| && status.items[i].text == version.status)
                ==> status.current == version.status
      ensures (version.status == [] || forall i :: 0 <= i < |status.items| ==> status.items[i].text != version.status)
                ==> status.current == old(status.current)
    {
      status.BlockSignals(true);
      if version.status != [] {
        status.SetCurrentText(version.status);
      }
      status.BlockSignals(false);
    }

    /** `_update_entity_path` under `block_signals("entity_path")`. */
    method UpdateEntityPath()
      modifies this, entityPath
      ensures project == old(project) && version == old(version) && productText == old(productText)
      ensures !pathBlocked
      ensures entityPath.path == PathText(project, version)
      ensures entityPath.segments == SplitOn(entityPath.normpath(PathText(project, version)), '/')
      ensures entityPath.layout == EntityPath.Layout(entityPath.segments)
    {
      pathBlocked := true;
      entityPath.SetEntityPath(PathText(project, version));
      pathBlocked := false;
    }

    /** `_update_product_name`. */
    method UpdateProductName()
      modifies this
      ensures project == old(project) && version == old(version) && pathBlocked == old(pathBlocked)
      ensures productText == ProductText(version)
    {
      productText := ProductText(version);
    }

    /** `on_ctlr_project_changed`: stores the project, then refreshes the
        status items. */
    method OnProjectChanged(data: Project) returns (r: Result<(), KeyError>)
      modifies this, status
      ensures project == data && version == old(version) && productText == old(productText)
      ensures status.emitted == old(status.emitted)
      ensures GetStatuses(data).Err? ==>
                r == Err(GetStatuses(data).error) && status.blocked
                && status.items == old(status.items) && status.current == old(status.current)
      ensures GetStatuses(data).Ok? ==>
                r == Ok(()) && !status.blocked
                && var list := GetStatuses(data).value;
                   (list != [] ==> status.items == list && status.current == list[0].text)
                   && (list == [] ==> status.items == old(status.items)
                                      && status.current == (if old(status.items) == [] then old(status.current)
                                                            else old(status.items)[0].text))
    {
      project := data;
      r := UpdateStatusItems();
    }

    /** `on_ctlr_version_status_changed`: records the new status, then
        selects it without echoing a signal. */
    method OnVersionStatusChanged(newStatus: string)
      modifies this, status
      ensures project == old(project) && version == old(version).(status := newStatus)
      ensures !status.blocked && status.emitted == old(status.emitted) && status.items == old(status.items)
      ensures (newStatus != [] && exists i :: 0 <= i < |status.items| && status.items[i].text == newStatus)
                ==> status.current == newStatus
      ensures (newStatus == [] || forall i :: 0 <= i < |status.items| ==> status.items[i].text != newStatus)
                ==> status.current == old(status.current)
    {
      version := version.(status := newStatus);
      UpdateStatus();
    }

    /** `on_ctlr_version_data_changed`: stores the version, then refreshes
        the status, the entity path and the product name. */
    method OnVersionDataChanged(data: Version)
      modifies this, status, entityPath
      ensures project == old(project) && version == data
      ensures !status.blocked && status.emitted == old(status.emitted) && status.items == old(status.items)
      ensures (data.status != [] && exists i :: 0 <= i < |status.items| && status.items[i].text == data.status)
                ==> status.current == data.status
      ensures (data.status == [] || forall i :: 0 <= i < |status.items| ==> status.items[i].text != data.status)
                ==> status.current == old(status.current)
      ensures entityPath.path == PathText(project, data) && !pathBlocked
      ensures entityPath.segments == SplitOn(entityPath.normpath(PathText(project, data)), '/')
      ensures entityPath.layout == EntityPath.Layout(entityPath.segments)
      ensures productText == ProductText(data)
    {
      version := data;
      UpdateStatus();
      UpdateEntityPath();
      UpdateProductName();
    }
  }
}
