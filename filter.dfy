/** The multi-select filter widget `AYFilter`: a list of filter items, a map
    of tag widgets for the selected ones, and the signals it emits, kept as an
    event log. */
module Filter {
  import opened Wrappers
  import ODict

  /** `FilterItem`; the optional colour and icon are `None` when unset. */
  datatype FilterItem = FilterItem(key: string, labelText: string, selected: bool,
                                   color: Option<string>, icon: Option<string>,
                                   enabled: bool)

  /** `FilterItem.__eq__` and `__hash__`: two items are the same filter when
      their keys are equal, whatever their other fields. */
  predicate SameFilter(a: FilterItem, b: FilterItem)
  {
    a.key == b.key
  }

  /** Equality is by key alone: changing any other field keeps an item the
      same filter, and items with different keys are never the same. */
  lemma SameFilterByKey(a: FilterItem, labelText: string, selected: bool, color: Option<string>,
                        icon: Option<string>, enabled: bool, b: FilterItem)
    ensures SameFilter(a, a.(labelText := labelText, selected := selected, color := color, icon := icon, enabled := enabled))
    ensures a.key != b.key ==> !SameFilter(a, b)
  {
  }

  /** The tag widget shown for a selected item: its colour and label. */
  datatype Tag = Tag(color: string, labelText: string)

  /** The signals `filter_added`, `filter_removed` and `filter_changed`. */
  datatype Event = FilterAdded(key: string) | FilterRemoved(key: string)
                 | FilterChanged(keys: seq<string>)

  /** Largest height of the dropdown popup, `POPUP_MAX_HEIGHT`. */
  const PopupMaxHeight := 300
  /** Height of one row of the popup list. */
  const RowHeight := 36

  /** `FilterDropdownPopup._adjust_size`: the new fixed height of the popup
      holding `count` rows; an empty list keeps the current height. */
  function PopupHeight(count: nat, current: int): (h: int)
    ensures count == 0 ==> h == current
    ensures count > 0 ==> h <= PopupMaxHeight && h <= RowHeight * count + 8
    ensures count > 0 ==> h == PopupMaxHeight || h == RowHeight * count + 8
  {
    if count == 0 then current
    else if RowHeight * count + 8 < PopupMaxHeight then RowHeight * count + 8
    else PopupMaxHeight
  }

  /** `get_selected_keys`: the keys of the selected items, in item order. */
  function SelectedKeys(items: seq<FilterItem>): (r: seq<string>)
    ensures |r| <= |items|
    ensures forall k :: k in r <==> exists i :: 0 <= i < |items| && items[i].selected && items[i].key == k
  {
    if items == [] then []
    else
      var n := |items| - 1;
      var r := SelectedKeys(items[..n]) + (if items[n].selected then [items[n].key] else []);
      assert forall i :: 0 <= i < n ==> items[..n][i] == items[i];
      r
  }

  /** Selection keeps item order: the keys of a concatenation are the keys of
      each part, one after the other. */
  lemma {:induction false} SelectedKeysAppend(a: seq<FilterItem>, b: seq<FilterItem>)
    ensures SelectedKeys(a + b) == SelectedKeys(a) + SelectedKeys(b)
    decreases |b|
  {
    if b != [] {
      var n := |b| - 1;
      assert (a + b)[..|a| + n] == a + b[..n];
      SelectedKeysAppend(a, b[..n]);
    } else {
      assert a + b == a;
    }
  }

  /** Position of the first item with `key`, as the source's `for ... break`
      loops find it. */
  function FirstWithKey(items: seq<FilterItem>, key: string): (r: Option<nat>)
    ensures r.Some? ==> r.value < |items| && items[r.value].key == key
                        && forall j :: 0 <= j < r.value ==> items[j].key != key
    ensures r.None? ==> forall j :: 0 <= j < |items| ==> items[j].key != key
  {
    if items == [] then None
    else if items[0].key == key then Some(0)
    else match FirstWithKey(items[1..], key)
      case None => None
      case Some(i) => Some(i + 1)
  }

  predicate UniqueKeys(items: seq<FilterItem>)
  {
    forall i, j :: 0 <= i < j < |items| ==> items[i].key != items[j].key
  }

  /** With unique keys, an item is the first one with its key. */
  lemma FirstOfUnique(items: seq<FilterItem>, i: nat)
    requires UniqueKeys(items) && i < |items|
    ensures FirstWithKey(items, items[i].key) == Some(i)
  {
  }

  /** The tag map holds exactly the keys of the selected items. */
  ghost predicate TagsMatch(items: seq<FilterItem>, tags: ODict.Dict<string, Tag>)
  {
    forall k :: ODict.HasKey(tags, k) <==> k in SelectedKeys(items)
  }

  /** The tag built for an item: its own colour unless that is unset or
      empty, then the widget's default colour. */
  function TagOf(item: FilterItem, defaultColor: string): (t: Tag)
    ensures t.labelText == item.labelText
    ensures item.color.Some? && item.color.value != [] ==> t.color == item.color.value
    ensures item.color.None? || item.color.value == [] ==> t.color == defaultColor
  {
    var c := if item.color.Some? && item.color.value != [] then item.color.value else defaultColor;
    Tag(c, item.labelText)
  }

  /** `_add_tag`: nothing when the key already has a tag. */
  function AddTag(tags: ODict.Dict<string, Tag>, item: FilterItem, defaultColor: string): (r: ODict.Dict<string, Tag>)
    ensures forall k :: ODict.HasKey(r, k) <==> ODict.HasKey(tags, k) || k == item.key
  {
    if ODict.HasKey(tags, item.key) then tags
    else
      var r := ODict.Set(tags, item.key, TagOf(item, defaultColor));
      assert forall k :: ODict.HasKey(r, k) <==> ODict.HasKey(tags, k) || k == item.key by {
        forall k ensures ODict.HasKey(r, k) <==> ODict.HasKey(tags, k) || k == item.key {
          ODict.SetHasKey(tags, item.key, TagOf(item, defaultColor), k);
        }
      }
      r
  }

  /** `_remove_tag`: nothing when the key has no tag. */
  function RemoveTag(tags: ODict.Dict<string, Tag>, key: string): (r: ODict.Dict<string, Tag>)
    ensures forall k :: ODict.HasKey(r, k) <==> ODict.HasKey(tags, k) && k != key
  {
    if !ODict.HasKey(tags, key) then tags
    else
      var r := ODict.Remove(tags, key);
      assert forall k :: ODict.HasKey(r, k) <==> ODict.HasKey(tags, k) && k != key by {
        forall k ensures ODict.HasKey(r, k) <==> ODict.HasKey(tags, k) && k != key {
          ODict.RemoveHasKey(tags, key, k);
        }
      }
      r
  }

  /** One step of `_sync_tags_from_items`. */
  function SyncStep(tags: ODict.Dict<string, Tag>, item: FilterItem, defaultColor: string): ODict.Dict<string, Tag>
  {
    if item.selected && !ODict.HasKey(tags, item.key) then AddTag(tags, item, defaultColor)
    else if !item.selected && ODict.HasKey(tags, item.key) then RemoveTag(tags, item.key)
    else tags
  }

  /** `_sync_tags_from_items` over `items`, starting from no tags. */
  function SyncTags(items: seq<FilterItem>, defaultColor: string): ODict.Dict<string, Tag>
  {
    if items == [] then []
    else SyncStep(SyncTags(items[..|items| - 1], defaultColor), items[|items| - 1], defaultColor)
  }

  /** The last item with key `k` is selected. */
  ghost predicate LastSelected(items: seq<FilterItem>, k: string)
  {
    exists i :: 0 <= i < |items| && items[i].key == k && items[i].selected
                && forall j :: i < j < |items| ==> items[j].key != k
  }

  /** After syncing, a key has a tag exactly when the LAST item with that key
      is selected: a later duplicate overrides an earlier one. */
  lemma {:induction false} SyncTagsKeys(items: seq<FilterItem>, defaultColor: string, k: string)
    ensures ODict.HasKey(SyncTags(items, defaultColor), k) <==> LastSelected(items, k)
    decreases |items|
  {
    if items != [] {
      var n := |items| - 1;
      var p := items[..n];
      SyncTagsKeys(p, defaultColor, k);
      var x := items[n];
      if x.key == k {
        if x.selected {
          assert LastSelected(items, k) by {
            assert items[n].key == k && items[n].selected;
          }
        }
      } else {
        LastSelectedOther(items, k);
      }
    }
  }

  /** A last entry with another key does not change which entry is the
      last with key `k`. */
  lemma LastSelectedOther(items: seq<FilterItem>, k: string)
    requires items != [] && items[|items| - 1].key != k
    ensures LastSelected(items, k) <==> LastSelected(items[..|items| - 1], k)
  {
    var n := |items| - 1;
    var p := items[..n];
    if LastSelected(p, k) {
      var i :| 0 <= i < |p| && p[i].key == k && p[i].selected
               && forall j :: i < j < |p| ==> p[j].key != k;
      assert items[i] == p[i];
      assert forall j :: i < j < |items| ==> items[j].key != k by {
        forall j | i < j < |items| ensures items[j].key != k {
          if j < n { assert items[j] == p[j]; }
        }
      }
    }
    if LastSelected(items, k) {
      var i :| 0 <= i < |items| && items[i].key == k && items[i].selected
               && forall j :: i < j < |items| ==> items[j].key != k;
      assert i < n && p[i] == items[i];
      assert LastSelected(p, k);
    }
  }

  /** With unique keys the last item with a key is the only one, so the
      synced tags are exactly the selected keys. */
  lemma SyncTagsMatch(items: seq<FilterItem>, defaultColor: string)
    requires UniqueKeys(items)
    ensures TagsMatch(items, SyncTags(items, defaultColor))
  {
    forall k ensures ODict.HasKey(SyncTags(items, defaultColor), k) <==> k in SelectedKeys(items) {
      SyncTagsKeys(items, defaultColor, k);
      if k in SelectedKeys(items) {
        var i :| 0 <= i < |items| && items[i].selected && items[i].key == k;
        assert LastSelected(items, k);
      }
    }
  }

  /** Removing an entry keeps the keys distinct. */
  lemma RemoveAtUnique(items: seq<FilterItem>, i: nat)
    requires UniqueKeys(items) && i < |items|
    ensures UniqueKeys(items[..i] + items[i + 1..])
  {
    var r := items[..i] + items[i + 1..];
    assert forall j :: 0 <= j < |r| ==> r[j] == items[Skip(j, i)];
    forall a, b | 0 <= a < b < |r| ensures r[a].key != r[b].key {
      assert Skip(a, i) < Skip(b, i);
    }
  }

  /** Dropping item `i` drops its key from the selection and keeps every
      other key's state. */
  lemma RemoveAtSelected(items: seq<FilterItem>, i: nat)
    requires UniqueKeys(items) && i < |items|
    ensures UniqueKeys(items[..i] + items[i + 1..])
    ensures forall k :: k in SelectedKeys(items[..i] + items[i + 1..]) <==> k in SelectedKeys(items) && k != items[i].key
  {
    RemoveAtUnique(items, i);
    var r := items[..i] + items[i + 1..];
    assert DropsAt(items, r, i) by {
      forall j | 0 <= j < |r| ensures r[j] == items[Skip(j, i)] {
        if j < i { assert r[j] == items[..i][j]; } else { assert r[j] == items[i + 1..][j - i]; }
      }
    }
    forall k ensures k in SelectedKeys(r) <==> k in SelectedKeys(items) && k != items[i].key {
      RemoveAtKey(items, r, i, k);
    }
  }

  /** `r` is `items` without item `i`. */
  predicate DropsAt(items: seq<FilterItem>, r: seq<FilterItem>, i: nat)
  {
    i < |items| && |r| + 1 == |items|
    && forall j :: 0 <= j < |r| ==> r[j] == items[Skip(j, i)]
  }

  /** One key's state after dropping item `i`. */
  lemma RemoveAtKey(items: seq<FilterItem>, r: seq<FilterItem>, i: nat, k: string)
    requires UniqueKeys(items) && DropsAt(items, r, i)
    ensures k in SelectedKeys(r) <==> k in SelectedKeys(items) && k != items[i].key
  {
    if k in SelectedKeys(r) {
      var j :| 0 <= j < |r| && r[j].selected && r[j].key == k;
      var m := Skip(j, i);
      assert r[j] == items[m];
      assert items[m].key != items[i].key;
    }
    if k in SelectedKeys(items) && k != items[i].key {
      var j :| 0 <= j < |items| && items[j].selected && items[j].key == k;
      var m := if j < i then j else j - 1;
      assert Skip(m, i) == j;
      assert r[m] == items[j];
    }
  }

  /** Position in the full list of position `j` of the list without item
      `i`. */
  function Skip(j: nat, i: nat): (m: nat)
    ensures m != i && (m < i <==> j < i)
  {
    if j < i then j else j + 1
  }

  /** Setting the selection of item `i` changes only its key's state. */
  lemma FlipSelected(items: seq<FilterItem>, i: nat, s: bool)
    requires UniqueKeys(items) && i < |items|
    ensures UniqueKeys(items[i := items[i].(selected := s)])
    ensures forall k :: k in SelectedKeys(items[i := items[i].(selected := s)])
                        <==> if k == items[i].key then s else k in SelectedKeys(items)
  {
    var r := items[i := items[i].(selected := s)];
    forall k ensures k in SelectedKeys(r) <==> if k == items[i].key then s else k in SelectedKeys(items) {
      if k == items[i].key && s {
        assert r[i].selected && r[i].key == k;
      }
      if k != items[i].key && k in SelectedKeys(items) {
        var j :| 0 <= j < |items| && items[j].selected && items[j].key == k;
        assert r[j] == items[j];
      }
    }
  }

  /** The items after `clear_selection` (`s` false) or `select_all` (`s`
      true) has visited the first `n` of them, when keys are unique. */
  function SetFirst(items: seq<FilterItem>, n: nat, s: bool): (r: seq<FilterItem>)
    ensures |r| == |items|
    ensures forall j :: 0 <= j < |items| ==> r[j] == if j < n then items[j].(selected := s) else items[j]
  {
    seq(|items|, j requires 0 <= j < |items| => if j < n then items[j].(selected := s) else items[j])
  }

  /** The signals those first `n` steps emit: one `filter_added` or
      `filter_removed` and one `filter_changed` per item whose state flips. */
  function SetAllEvents(items: seq<FilterItem>, n: nat, s: bool): seq<Event>
    requires n <= |items|
  {
    if n == 0 then []
    else
      SetAllEvents(items, n - 1, s)
      + if items[n - 1].selected == s then []
        else [if s then FilterAdded(items[n - 1].key) else FilterRemoved(items[n - 1].key),
              FilterChanged(SelectedKeys(SetFirst(items, n, s)))]
  }

  /** The same items, up to their selection state. */
  predicate SameShape(a: seq<FilterItem>, b: seq<FilterItem>)
  {
    |a| == |b| && forall j :: 0 <= j < |a| ==> b[j] == a[j].(selected := b[j].selected)
  }

  class AYFilter {
    const labelText: string
    const defaultColor: string
    /** `_items`. */
    var items: seq<FilterItem>
    /** `_tags`: key to tag widget, in insertion order. */
    var tags: ODict.Dict<string, Tag>
    /** `_dropdown_visible`. */
    var dropdownVisible: bool
    /** The signals emitted so far. */
    var events: seq<Event>

    /** The widget's invariant: item keys are unique and the tags are exactly
        the selected items' keys. */
    ghost predicate Valid()
      reads this
    {
      UniqueKeys(items) && TagsMatch(items, tags)
    }

    /** `AYFilter.__init__`: stores the items, then `_sync_tags_from_items`
        builds a tag for every key whose last item is selected. No signal
        is emitted: `filter_changed` comes only from the handlers. */
    constructor (labelText: string, items0: seq<FilterItem>, defaultColor: string)
      ensures this.labelText == labelText && this.defaultColor == defaultColor
      ensures items == items0 && !dropdownVisible
      ensures forall k :: ODict.HasKey(tags, k) <==> LastSelected(items0, k)
      ensures events == []
      ensures UniqueKeys(items0) ==> Valid()
    {
      var t: ODict.Dict<string, Tag> := [];
      for i := 0 to |items0|
        invariant t == SyncTags(items0[..i], defaultColor)
      {
        assert items0[..i + 1][..i] == items0[..i];
        var item := items0[i];
        if item.selected && !ODict.HasKey(t, item.key) {
          t := AddTag(t, item, defaultColor);
        } else if !item.selected && ODict.HasKey(t, item.key) {
          t := RemoveTag(t, item.key);
        }
      }
      assert items0[..|items0|] == items0;
      this.labelText := labelText;
      this.defaultColor := defaultColor;
      items := items0;
      tags := t;
      dropdownVisible := false;
      events := [];
      new;
      forall k ensures ODict.HasKey(tags, k) <==> LastSelected(items0, k) {
        SyncTagsKeys(items0, defaultColor, k);
      }
      if UniqueKeys(items0) {
        SyncTagsMatch(items0, defaultColor);
      }
    }

    /** The `for ... break` search of the item list by key. */
    method FindKey(key: string) returns (r: Option<nat>)
      ensures r == FirstWithKey(items, key)
    {
      var i := 0;
      while i < |items|
        invariant 0 <= i <= |items|
        invariant forall j :: 0 <= j < i ==> items[j].key != key
      {
        if items[i].key == key {
          FirstIsUnique(items, key, i);
          return Some(i);
        }
        i := i + 1;
      }
      FirstIsUnique(items, key, |items|);
      return None;
    }

    /** `add_filter`: an item equal (by key) to one already present is
        ignored; otherwise it is appended and gets a tag iff selected. */
    method AddFilter(item: FilterItem)
      modifies this
      ensures (exists i :: 0 <= i < |old(items)| && SameFilter(old(items)[i], item))
              ==> items == old(items) && tags == old(tags)
      ensures (forall i :: 0 <= i < |old(items)| ==> !SameFilter(old(items)[i], item))
              ==> items == old(items) + [item]
                  && tags == if item.selected then AddTag(old(tags), item, defaultColor) else old(tags)
      ensures events == old(events) && dropdownVisible == old(dropdownVisible)
      ensures old(Valid()) ==> Valid()
    {
      var found := FindKey(item.key);
      if found.None? {
        ghost var before := items;
        items := items + [item];
        if item.selected {
          tags := AddTag(tags, item, defaultColor);
        }
        SelectedKeysAppend(before, [item]);
      } else {
        assert SameFilter(items[found.value], item);
      }
    }

    /** `remove_filter`: removes the first item with the key and its tag;
        every other item stays, in order. */
    method RemoveFilter(key: string)
      modifies this
      ensures match FirstWithKey(old(items), key)
              case None => items == old(items) && tags == old(tags)
              case Some(i) => items == old(items)[..i] + old(items)[i + 1..]
                              && tags == RemoveTag(old(tags), key)
      ensures events == old(events) && dropdownVisible == old(dropdownVisible)
      ensures old(Valid()) ==> Valid()
    {
      var found := FindKey(key);
      if found.Some? {
        var i := found.value;
        if Valid() {
          RemoveAtSelected(items, i);
        }
        items := items[..i] + items[i + 1..];
        tags := RemoveTag(tags, key);
      }
    }

    /** `set_filter_selected`: the first item with the key takes the new
        state if it differs; its tag is added or removed and `filter_added`
        or `filter_removed` is emitted, then `filter_changed`. */
    method SetFilterSelected(key: string, selected: bool)
      modifies this
      ensures match FirstWithKey(old(items), key)
              case None => items == old(items) && tags == old(tags) && events == old(events)
              case Some(i) =>
                if old(items)[i].selected == selected then
                  items == old(items) && tags == old(tags) && events == old(events)
                else
                  items == old(items)[i := old(items)[i].(selected := selected)]
                  && tags == (if selected then AddTag(old(tags), items[i], defaultColor)
                              else RemoveTag(old(tags), key))
                  && events == old(events)
                               + [if selected then FilterAdded(key) else FilterRemoved(key),
                                  FilterChanged(SelectedKeys(items))]
      ensures dropdownVisible == old(dropdownVisible)
      ensures old(Valid()) ==> Valid()
    {
      var found := FindKey(key);
      if found.Some? {
        var i := found.value;
        if items[i].selected != selected {
          if Valid() {
            FlipSelected(items, i, selected);
          }
          items := items[i := items[i].(selected := selected)];
          if selected {
            tags := AddTag(tags, items[i], defaultColor);
            events := events + [FilterAdded(key)];
          } else {
            tags := RemoveTag(tags, key);
            events := events + [FilterRemoved(key)];
          }
          events := events + [FilterChanged(SelectedKeys(items))];
        }
      }
    }

    /** `clear_selection`: every selected item is deselected through
        `set_filter_selected`; with unique keys none stays selected. */
    method ClearSelection()
      modifies this
      ensures SameShape(old(items), items)
      ensures dropdownVisible == old(dropdownVisible)
      ensures old(Valid()) ==> Valid() && items == SetFirst(old(items), |items|, false)
                               && SelectedKeys(items) == []
                               && events == old(events) + SetAllEvents(old(items), |items|, false)
    {
      var n := |items|;
      for i := 0 to n
        invariant SameShape(old(items), items)
        invariant dropdownVisible == old(dropdownVisible)
        invariant old(Valid()) ==> Valid() && items == SetFirst(old(items), i, false)
                                   && events == old(events) + SetAllEvents(old(items), i, false)
      {
        if items[i].selected {
          SetStep(i, false);
        } else if old(Valid()) {
          assert SetFirst(old(items), i + 1, false) == SetFirst(old(items), i, false);
        }
      }
      if old(Valid()) {
        NoneSelected(items);
      }
    }

    /** `select_all`: every unselected item is selected through
        `set_filter_selected`; with unique keys all end up selected. */
    method SelectAll()
      modifies this
      ensures SameShape(old(items), items)
      ensures dropdownVisible == old(dropdownVisible)
      ensures old(Valid()) ==> Valid() && items == SetFirst(old(items), |items|, true)
                               && SelectedKeys(items) == ItemKeys(items)
                               && events == old(events) + SetAllEvents(old(items), |items|, true)
    {
      var n := |items|;
      for i := 0 to n
        invariant SameShape(old(items), items)
        invariant dropdownVisible == old(dropdownVisible)
        invariant old(Valid()) ==> Valid() && items == SetFirst(old(items), i, true)
                                   && events == old(events) + SetAllEvents(old(items), i, true)
      {
        if !items[i].selected {
          SetStep(i, true);
        } else if old(Valid()) {
          assert SetFirst(old(items), i + 1, true) == SetFirst(old(items), i, true);
        }
      }
      if old(Valid()) {
        AllSelected(items);
      }
    }

    /** One flip of the `clear_selection` / `select_all` loops. */
    method SetStep(i: nat, s: bool)
      requires i < |items| && items[i].selected != s
      modifies this
      ensures SameShape(old(items), items) && dropdownVisible == old(dropdownVisible)
      ensures old(Valid()) ==> Valid() && items == old(items)[i := old(items)[i].(selected := s)]
                               && events == old(events)
                                            + [if s then FilterAdded(items[i].key) else FilterRemoved(items[i].key),
                                               FilterChanged(SelectedKeys(items))]
    {
      var key := items[i].key;
      if Valid() {
        FirstOfUnique(items, i);
      }
      SetFilterSelected(key, s);
    }

    /** `_on_toggle_dropdown`: an open popup is closed, and its
        `popup_closed` signal clears the flag; a closed one is opened. */
    method ToggleDropdown()
      modifies this
      ensures dropdownVisible == !old(dropdownVisible)
      ensures items == old(items) && tags == old(tags) && events == old(events)
    {
      if dropdownVisible {
        dropdownVisible := false;
      } else {
        dropdownVisible := true;
      }
    }
  }

  /** The keys of all items, in order. */
  function ItemKeys(items: seq<FilterItem>): (r: seq<string>)
    ensures |r| == |items| && forall j :: 0 <= j < |items| ==> r[j] == items[j].key
  {
    seq(|items|, j requires 0 <= j < |items| => items[j].key)
  }

  lemma {:induction false} NoneSelected(items: seq<FilterItem>)
    requires forall j :: 0 <= j < |items| ==> !items[j].selected
    ensures SelectedKeys(items) == []
    decreases |items|
  {
    if items != [] {
      NoneSelected(items[..|items| - 1]);
    }
  }

  lemma {:induction false} AllSelected(items: seq<FilterItem>)
    requires forall j :: 0 <= j < |items| ==> items[j].selected
    ensures SelectedKeys(items) == ItemKeys(items)
    decreases |items|
  {
    if items != [] {
      var p := items[..|items| - 1];
      AllSelected(p);
      assert ItemKeys(items) == ItemKeys(p) + [items[|items| - 1].key];
    }
  }

  /** A search that has passed `i` items without meeting `key` and stops at
      `i` finds what `FirstWithKey` finds. */
  lemma {:induction false} FirstIsUnique(items: seq<FilterItem>, key: string, i: nat)
    requires i <= |items| && forall j :: 0 <= j < i ==> items[j].key != key
    requires i < |items| ==> items[i].key == key
    ensures FirstWithKey(items, key) == if i < |items| then Some(i) else None
  {
    var r := FirstWithKey(items, key);
    if r.Some? {
      assert r.value >= i;
      assert i < |items| ==> !(r.value > i);
    }
  }
}
