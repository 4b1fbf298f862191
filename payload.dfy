/** `preprocess_payload`: turns the activity payload of a version into the
    comment, version-publish and status-change models the activity stream
    shows. JSON values are a datatype; decoding a string-encoded
    `activityData` is a given function. */
module Payload {
  import opened Wrappers
  import ODict

  /** A decoded JSON value. `JOther` is a number, a boolean or null, with
      the text Python's `str()` gives it. */
  datatype Json =
    | JStr(s: string)
    | JOther(text: string)
    | JObj(fields: ODict.Dict<string, Json>)
    | JList(items: seq<Json>)

  /** The exceptions that escape `preprocess_payload`. */
  datatype PyError = KeyError | TypeError | AttributeError | DecodeError

  /** The placeholder for a missing value. */
  const Nothing: string := "Not available"

  /** `repr()` of a value, as `str()` shows values nested in a list or a
      dictionary. */
  function Repr(j: Json): string
    decreases j, 1
  {
    match j
    case JStr(s) => "'" + s + "'"
    case JOther(t) => t
    case JList(items) => "[" + ReprItems(items, j) + "]"
    case JObj(fields) => "{" + ReprFields(fields, j) + "}"
  }

  function ReprItems(items: seq<Json>, ghost parent: Json): string
    requires forall i :: 0 <= i < |items| ==> items[i] < parent
    decreases parent, 0, |items|
  {
    if items == [] then ""
    else Repr(items[0]) + (if |items| > 1 then ", " else "") + ReprItems(items[1..], parent)
  }

  function ReprFields(fields: ODict.Dict<string, Json>, ghost parent: Json): string
    requires forall i :: 0 <= i < |fields| ==> fields[i].1 < parent
    decreases parent, 0, |fields|
  {
    if fields == [] then ""
    else "'" + fields[0].0 + "': " + Repr(fields[0].1) + (if |fields| > 1 then ", " else "")
         + ReprFields(fields[1..], parent)
  }

  /** `str()`: a string is itself, anything else its printed form. */
  function Str(j: Json): (r: string)
    ensures j.JStr? ==> r == j.s
    ensures j.JOther? ==> r == j.text
  {
    if j.JStr? then j.s else Repr(j)
  }

  /** `j.get(key, default)`: only a dictionary has `get`. */
  function DotGet(j: Json, key: string, default: Json): (r: Result<Json, PyError>)
    ensures r.Err? <==> !j.JObj?
    ensures r.Ok? && ODict.HasKey(j.fields, key) ==> ODict.Get(j.fields, key) == Some(r.value)
    ensures r.Ok? && !ODict.HasKey(j.fields, key) ==> r.value == default
  {
    if j.JObj? then Ok(ODict.Get(j.fields, key).GetOr(default)) else Err(AttributeError)
  }

  /** `j[key]` with a string key. */
  function Subscript(j: Json, key: string): (r: Result<Json, PyError>)
    ensures r == Err(KeyError) <==> j.JObj? && !ODict.HasKey(j.fields, key)
    ensures r.Err? && r.error != KeyError <==> !j.JObj?
    ensures r.Ok? ==> ODict.Get(j.fields, key) == Some(r.value)
  {
    if !j.JObj? then Err(TypeError)
    else match ODict.Get(j.fields, key)
      case Some(v) => Ok(v)
      case None => Err(KeyError)
  }

  /** `for x in j`: a list gives its items, a dictionary its keys, a string
      its characters; other values are not iterable. */
  function Iterate(j: Json): (r: Result<seq<Json>, PyError>)
    ensures r.Err? <==> j.JOther?
    ensures j.JList? ==> r == Ok(j.items)
    ensures r.Ok? ==> |r.value| == match j
                                   case JList(items) => |items|
                                   case JObj(fields) => |fields|
                                   case JStr(s) => |s|
                                   case JOther(_) => 0
  {
    match j
    case JList(items) => Ok(items)
    case JObj(fields) => Ok(seq(|fields|, i requires 0 <= i < |fields| => JStr(fields[i].0)))
    case JStr(s) => Ok(seq(|s|, i requires 0 <= i < |s| => JStr([s[i]])))
    case JOther(_) => Err(TypeError)
  }

  /** A value usable as a dictionary key. */
  predicate Hashable(j: Json)
  {
    j.JStr? || j.JOther?
  }

  /** Users keyed by their `short_name`. */
  type Users = ODict.Dict<Json, Json>

  /** The short name of a user record, when it is a dictionary that has
      one. */
  function ShortName(d: Json): Option<Json>
  {
    if d.JObj? then ODict.Get(d.fields, "short_name") else None
  }

  /** `{d["short_name"]: d for d in users}`: a later record with the same
      short name replaces an earlier one. */
  function UsersFrom(ds: seq<Json>): (r: Result<Users, PyError>)
    ensures r.Ok? <==> forall i :: 0 <= i < |ds| ==> ShortName(ds[i]).Some? && Hashable(ShortName(ds[i]).value)
  {
    if ds == [] then Ok([])
    else
      var n := |ds| - 1;
      assert forall i :: 0 <= i < n ==> ds[..n][i] == ds[i];
      var prev :- UsersFrom(ds[..n]);
      var key :- Subscript(ds[n], "short_name");
      if !Hashable(key) then Err(TypeError)
      else Ok(ODict.Set(prev, key, ds[n]))
  }

  /** Every listed user is found under its short name. */
  lemma UsersFromHas(ds: seq<Json>)
    requires UsersFrom(ds).Ok?
    ensures forall i :: 0 <= i < |ds| ==> ODict.HasKey(UsersFrom(ds).value, ShortName(ds[i]).value)
  {
    forall i | 0 <= i < |ds| ensures ODict.HasKey(UsersFrom(ds).value, ShortName(ds[i]).value) {
      UserFoundAt(ds, i);
    }
  }

  /** The user at position `i` is found under its short name. */
  lemma {:induction false} UserFoundAt(ds: seq<Json>, i: nat)
    requires UsersFrom(ds).Ok? && i < |ds|
    ensures ShortName(ds[i]).Some? && ODict.HasKey(UsersFrom(ds).value, ShortName(ds[i]).value)
    decreases |ds|
  {
    var n := |ds| - 1;
    UsersFromSnoc(ds);
    var prev, k := UsersFrom(ds[..n]).value, ShortName(ds[n]).value;
    if i < n {
      UserFoundAt(ds[..n], i);
      assert ds[..n][i] == ds[i];
      ODict.SetHasKey(prev, k, ds[n], ShortName(ds[i]).value);
    } else {
      ODict.SetHasKey(prev, k, ds[n], k);
    }
  }

  /** No record after position `i` has short name `k`. */
  predicate LastWith(ds: seq<Json>, i: nat, k: Json)
  {
    i < |ds| && ShortName(ds[i]) == Some(k) && forall j :: i < j < |ds| ==> ShortName(ds[j]) != Some(k)
  }

  /** One more record either fails or is stored under its short name. */
  lemma UsersFromSnoc(ds: seq<Json>)
    requires ds != [] && UsersFrom(ds).Ok?
    ensures UsersFrom(ds[..|ds| - 1]).Ok? && ShortName(ds[|ds| - 1]).Some?
    ensures UsersFrom(ds).value == ODict.Set(UsersFrom(ds[..|ds| - 1]).value, ShortName(ds[|ds| - 1]).value, ds[|ds| - 1])
  {
  }

  lemma LastWithSnoc(ds: seq<Json>, i: nat, k: Json)
    requires ds != [] && LastWith(ds[..|ds| - 1], i, k) && ShortName(ds[|ds| - 1]) != Some(k)
    ensures LastWith(ds, i, k) && ds[..|ds| - 1][i] == ds[i]
  {
    var n := |ds| - 1;
    forall j | i < j < |ds| ensures ShortName(ds[j]) != Some(k) {
      if j < n {
        assert ds[..n][j] == ds[j];
      }
    }
  }

  /** What is found under a short name is the last record with it. */
  lemma {:induction false} UsersFromLast(ds: seq<Json>, k: Json)
    requires UsersFrom(ds).Ok? && ODict.Get(UsersFrom(ds).value, k).Some?
    ensures exists i: nat :: LastWith(ds, i, k) && ODict.Get(UsersFrom(ds).value, k) == Some(ds[i])
    decreases |ds|
  {
    var n := |ds| - 1;
    UsersFromSnoc(ds);
    var prev := UsersFrom(ds[..n]).value;
    var key := ShortName(ds[n]).value;
    var r := UsersFrom(ds).value;
    if k == key {
      assert LastWith(ds, n, k);
    } else {
      ODict.SetOther(prev, key, ds[n], k);
      UsersFromLast(ds[..n], k);
      var i: nat :| LastWith(ds[..n], i, k) && ODict.Get(prev, k) == Some(ds[..n][i]);
      LastWithSnoc(ds, i, k);
      assert ODict.Get(r, k) == Some(ds[i]);
    }
  }

  /** `users.get(user_name, {}).get("full_name", user_name)`. */
  function FullName(users: Users, userName: Json): (r: Result<Json, PyError>)
    ensures !Hashable(userName) ==> r == Err(TypeError)
    ensures Hashable(userName) && ODict.Get(users, userName).None? ==> r == Ok(userName)
    ensures Hashable(userName) && ODict.Get(users, userName).Some? && ODict.Get(users, userName).value.JObj? ==>
              r == Ok(ODict.Get(ODict.Get(users, userName).value.fields, "full_name").GetOr(userName))
  {
    if !Hashable(userName) then Err(TypeError)
    else DotGet(ODict.Get(users, userName).GetOr(JObj([])), "full_name", userName)
  }

  /** The three models the stream shows. */
  datatype UiModel =
    | CommentModel(userFullName: Json, userName: Json, comment: Json, commentDate: Json)
    | VersionPublishModel(userFullName: Json, userName: Json, version: string, product: string, date: Json)
    | StatusChangeModel(userFullName: Json, userName: Json, product: string, version: string,
                        oldStatus: string, newStatus: string, date: Json)
  {
    /** The model's `type` property. */
    function Type(): string
    {
      match this
      case CommentModel(_, _, _, _) => "comment"
      case VersionPublishModel(_, _, _, _, _) => "version.publish"
      case StatusChangeModel(_, _, _, _, _, _, _) => "status.change"
    }
  }

  /** The activity types that produce a model. */
  predicate Shown(kind: string)
  {
    kind == "comment" || kind == "version.publish" || kind == "status.change"
  }

  /** An activity's `activityType`, when it is a dictionary with a string
      type; `""` otherwise. */
  function Kind(act: Json): string
  {
    if act.JObj? && ODict.Get(act.fields, "activityType").Some? && ODict.Get(act.fields, "activityType").value.JStr?
    then ODict.Get(act.fields, "activityType").value.s
    else ""
  }

  /** The field `key` of an activity's dictionary, or `default`. */
  function Field(j: Json, key: string, default: Json): Json
    requires j.JObj?
  {
    ODict.Get(j.fields, key).GetOr(default)
  }

  /** `act.get("activityData", {})`, decoded when it is a string. */
  function ActivityData(act: Json, loads: string -> Option<Json>): (r: Result<Json, PyError>)
    requires act.JObj?
    ensures !Field(act, "activityData", JObj([])).JStr? ==> r == Ok(Field(act, "activityData", JObj([])))
    ensures var raw := Field(act, "activityData", JObj([]));
            raw.JStr? ==> (r.Ok? <==> loads(raw.s).Some?) && (r.Ok? ==> Some(r.value) == loads(raw.s))
                          && (r.Err? ==> r.error == DecodeError)
  {
    var raw := Field(act, "activityData", JObj([]));
    if !raw.JStr? then Ok(raw)
    else match loads(raw.s)
      case Some(v) => Ok(v)
      case None => Err(DecodeError)
  }

  /** The author's `name` (default `"Not available"`) and full name. */
  function Author(users: Users, act: Json): (r: Result<(Json, Json), PyError>)
    requires act.JObj?
    ensures r.Ok? ==> Field(act, "author", JObj([])).JObj?
                      && r.value.0 == Field(Field(act, "author", JObj([])), "name", JStr(Nothing))
                      && FullName(users, r.value.0) == Ok(r.value.1)
  {
    var author := Field(act, "author", JObj([]));
    if !author.JObj? then Err(AttributeError)
    else
      var userName := Field(author, "name", JStr(Nothing));
      var fullName :- FullName(users, userName);
      Ok((userName, fullName))
  }

  /** The version-publish model: `origin.name` and `context.productName` of
      the activity data, as text. */
  function PublishModel(data: Json, user: (Json, Json), date: Json): (r: Result<UiModel, PyError>)
    ensures r.Ok? ==> data.JObj? && Field(data, "origin", JObj([])).JObj? && Field(data, "context", JObj([])).JObj?
    ensures r.Ok? ==> r.value.VersionPublishModel?
                      && r.value.version == Str(Field(Field(data, "origin", JObj([])), "name", JStr(Nothing)))
                      && r.value.product == Str(Field(Field(data, "context", JObj([])), "productName", JStr(Nothing)))
  {
    if !data.JObj? then Err(AttributeError)
    else
      var origin := Field(data, "origin", JObj([]));
      if !origin.JObj? then Err(AttributeError)
      else
        var version := Field(origin, "name", JStr(Nothing));
        var context := Field(data, "context", JObj([]));
        if !context.JObj? then Err(AttributeError)
        else
          var product := Field(context, "productName", JStr(Nothing));
          Ok(VersionPublishModel(user.1, user.0, Str(version), Str(product), date))
  }

  /** The status-change model: the old and new values as text; product and
      version are the placeholder. */
  function StatusModel(data: Json, user: (Json, Json), date: Json): (r: Result<UiModel, PyError>)
    ensures r.Ok? ==> data.JObj? && r.value.StatusChangeModel?
                      && r.value.product == Nothing && r.value.version == Nothing
                      && r.value.oldStatus == Str(Field(data, "oldValue", JStr(Nothing)))
                      && r.value.newStatus == Str(Field(data, "newValue", JStr(Nothing)))
  {
    if !data.JObj? then Err(AttributeError)
    else
      var oldValue := Field(data, "oldValue", JStr(Nothing));
      var newValue := Field(data, "newValue", JStr(Nothing));
      Ok(StatusChangeModel(user.1, user.0, Nothing, Nothing, Str(oldValue), Str(newValue), date))
  }

  /** The body of the loop over activities: the model one activity gives,
      `None` for a type that gives none. */
  function Process(users: Users, act: Json, loads: string -> Option<Json>): (r: Result<Option<UiModel>, PyError>)
    ensures !act.JObj? ==> r == Err(AttributeError)
    ensures r.Ok? ==> (r.value.Some? <==> Shown(Kind(act)))
    ensures r.Ok? && r.value.Some? ==>
              act.JObj? && r.value.value.Type() == Kind(act)
              && Author(users, act) == Ok((r.value.value.userName, r.value.value.userFullName))
    ensures r.Ok? && r.value.Some? && r.value.value.CommentModel? ==>
              r.value.value.comment == Field(act, "body", JStr(Nothing))
              && r.value.value.commentDate == Field(act, "updatedAt", JStr(Nothing))
  {
    if !act.JObj? then Err(AttributeError)
    else
      var data :- ActivityData(act, loads);
      var kind := Field(act, "activityType", JStr(""));
      var user :- Author(users, act);
      var date := Field(act, "updatedAt", JStr(Nothing));
      if kind == JStr("comment") then
        Ok(Some(CommentModel(user.1, user.0, Field(act, "body", JStr(Nothing)), date)))
      else if kind == JStr("version.publish") then
        var m :- PublishModel(data, user, date);
        Ok(Some(m))
      else if kind == JStr("status.change") then
        var m :- StatusModel(data, user, date);
        Ok(Some(m))
      else
        Ok(None)
  }

  /** The models of a list of activities, in order; the first exception
      stops everything. */
  function Models(users: Users, acts: seq<Json>, loads: string -> Option<Json>): Result<seq<UiModel>, PyError>
  {
    if acts == [] then Ok([])
    else
      var prev :- Models(users, acts[..|acts| - 1], loads);
      var m :- Process(users, acts[|acts| - 1], loads);
      Ok(prev + if m.Some? then [m.value] else [])
  }

  /** The types of the activities that give a model, in order. */
  function ShownKinds(acts: seq<Json>): (r: seq<string>)
    ensures forall i :: 0 <= i < |r| ==> Shown(r[i])
  {
    if acts == [] then []
    else
      var k := Kind(acts[|acts| - 1]);
      ShownKinds(acts[..|acts| - 1]) + if Shown(k) then [k] else []
  }

  /** Exactly one model per activity of a shown type, in input order, and
      none for the others. */
  lemma {:induction false} ModelsKinds(users: Users, acts: seq<Json>, loads: string -> Option<Json>)
    requires Models(users, acts, loads).Ok?
    ensures |Models(users, acts, loads).value| == |ShownKinds(acts)|
    ensures forall i :: 0 <= i < |ShownKinds(acts)| ==> Models(users, acts, loads).value[i].Type() == ShownKinds(acts)[i]
    decreases |acts|
  {
    if acts != [] {
      ModelsKinds(users, acts[..|acts| - 1], loads);
    }
  }

  /** Once a prefix fails, the whole list fails with the same exception. */
  lemma {:induction false} ModelsPrefixErr(users: Users, acts: seq<Json>, i: nat, loads: string -> Option<Json>)
    requires i <= |acts| && Models(users, acts[..i], loads).Err?
    ensures Models(users, acts, loads) == Models(users, acts[..i], loads)
    decreases |acts| - i
  {
    if i < |acts| {
      assert acts[..i + 1][..i] == acts[..i];
      ModelsPrefixErr(users, acts, i + 1, loads);
    } else {
      assert acts[..i] == acts;
    }
  }

  /** `preprocess_payload` on values. A missing `"project"` or a project
      without `"activities"` gives no models; any other exception
      propagates. */
  function Preprocess(activityData: ODict.Dict<string, Json>, projectData: ODict.Dict<string, Json>,
                      loads: string -> Option<Json>): (r: Result<seq<UiModel>, PyError>)
    ensures ODict.Get(activityData, "project").None? ==> r == Ok([])
    ensures ODict.Get(activityData, "project").Some? ==>
              Subscript(ODict.Get(activityData, "project").value, "activities") == Err(KeyError) ==> r == Ok([])
  {
    match ODict.Get(activityData, "project")
    case None => Ok([])
    case Some(project) =>
      match Subscript(project, "activities")
      case Err(KeyError) => Ok([])
      case Err(e) => Err(e)
      case Ok(activities) =>
        var userList :- Iterate(ODict.Get(projectData, "users").GetOr(JList([])));
        var users :- UsersFrom(userList);
        var acts :- Iterate(activities);
        Models(users, acts, loads)
  }

  /** One more activity: its model, if any, comes after the others. */
  lemma ModelsSnocOk(users: Users, acts: seq<Json>, x: Json, loads: string -> Option<Json>, prev: seq<UiModel>, m: Option<UiModel>)
    requires Models(users, acts, loads) == Ok(prev) && Process(users, x, loads) == Ok(m)
    ensures Models(users, acts + [x], loads) == Ok(prev + if m.Some? then [m.value] else [])
  {
    assert (acts + [x])[..|acts|] == acts;
  }

  /** One more activity that raises: the list raises the same. */
  lemma ModelsSnocErr(users: Users, acts: seq<Json>, x: Json, loads: string -> Option<Json>)
    requires Models(users, acts, loads).Ok? && Process(users, x, loads).Err?
    ensures Models(users, acts + [x], loads) == Err(Process(users, x, loads).error)
  {
    assert (acts + [x])[..|acts|] == acts;
  }

  /** The loop of `preprocess_payload`, appending one model per shown
      activity. */
  method ModelsLoop(users: Users, acts: seq<Json>, loads: string -> Option<Json>) returns (r: Result<seq<UiModel>, PyError>)
    ensures r == Models(users, acts, loads)
  {
    var uiData: seq<UiModel> := [];
    for i := 0 to |acts|
      invariant Models(users, acts[..i], loads) == Ok(uiData)
    {
      assert acts[..i + 1] == acts[..i] + [acts[i]];
      var m := Process(users, acts[i], loads);
      if m.Err? {
        ModelsSnocErr(users, acts[..i], acts[i], loads);
        ModelsPrefixErr(users, acts, i + 1, loads);
        return Err(m.error);
      }
      ModelsSnocOk(users, acts[..i], acts[i], loads, uiData, m.value);
      uiData := uiData + if m.value.Some? then [m.value.value] else [];
      assert Models(users, acts[..i] + [acts[i]], loads) == Ok(uiData);
    }
    assert acts[..|acts|] == acts;
    return Ok(uiData);
  }

  /** `preprocess_payload`. */
  method PreprocessPayload(activityData: ODict.Dict<string, Json>, projectData: ODict.Dict<string, Json>,
                           loads: string -> Option<Json>) returns (r: Result<seq<UiModel>, PyError>)
    ensures r == Preprocess(activityData, projectData, loads)
  {
    var project := ODict.Get(activityData, "project");
    if project.None? {
      return Ok([]);
    }
    var activities := Subscript(project.value, "activities");
    if activities == Err(KeyError) {
      return Ok([]);
    } else if activities.Err? {
      return Err(activities.error);
    }
    var userList := Iterate(ODict.Get(projectData, "users").GetOr(JList([])));
    if userList.Err? {
      return Err(userList.error);
    }
    var users := UsersFrom(userList.value);
    if users.Err? {
      return Err(users.error);
    }
    var acts := Iterate(activities.value);
    if acts.Err? {
      return Err(acts.error);
    }
    r := ModelsLoop(users.value, acts.value, loads);
  }
}
