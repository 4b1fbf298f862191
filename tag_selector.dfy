/** The tag selector widget `AYTagSelector` and its floating list
    `TagDropdown`: tag normalisation and sorting, the selected-name list, the
    badges shown for it, and the search and Enter rules of the dropdown. */
module TagSelector {
  import opened Wrappers
  import opened Text
  import ODict

  /** `TagData`. */
  datatype TagData = TagData(name: string, color: string)

  /** Colour of a tag that names none, `TagData.color`'s default. */
  const DefaultColor := "#8b9198"

  /** The forms a tag may be given in: a `TagData`, a dictionary (its string
      entries, and its `str()` text), or any other value (its `str()`
      text). */
  datatype RawTag = Given(tag: TagData)
                  | Fields(entries: ODict.Dict<string, string>, repr: string)
                  | Plain(repr: string)

  /** Python's `x or y` on optional strings: `x` when it is a non-empty
      string. */
  function OrElse(x: Option<string>, y: string): (r: string)
    ensures x.Some? && x.value != [] ==> r == x.value
    ensures x.None? || x.value == [] ==> r == y
  {
    if x.Some? && x.value != [] then x.value else y
  }

  /** One input of `_normalize_tags`: a dictionary is named by `"name"`, else
      `"text"`, else its `str()` text, and coloured by `"color"` or the
      default. */
  function ToTagData(raw: RawTag): (t: TagData)
    ensures raw.Given? ==> t == raw.tag
    ensures raw.Plain? ==> t == TagData(raw.repr, DefaultColor)
    ensures raw.Fields? ==> t.color == ODict.Get(raw.entries, "color").GetOr(DefaultColor)
    ensures raw.Fields? ==>
              t.name == OrElse(ODict.Get(raw.entries, "name"),
                               OrElse(ODict.Get(raw.entries, "text"), raw.repr))
  {
    match raw
    case Given(tag) => tag
    case Plain(repr) => TagData(repr, DefaultColor)
    case Fields(entries, repr) =>
      var name := OrElse(ODict.Get(entries, "name"), OrElse(ODict.Get(entries, "text"), repr));
      TagData(name, ODict.Get(entries, "color").GetOr(DefaultColor))
  }

  /** The sort key: the lower-cased name. */
  function NameKey(t: TagData): string
  {
    Lower(t.name)
  }

  /** Ascending by sort key (ties allowed). */
  predicate SortedByName(s: seq<TagData>)
  {
    forall i, j :: 0 <= i < j < |s| ==> !LexLess(NameKey(s[j]), NameKey(s[i]))
  }

  /** Inserts `x` before the first element whose key is greater, so after
      every element of equal key. */
  function InsertByName(x: TagData, s: seq<TagData>): seq<TagData>
  {
    if s == [] then [x]
    else if LexLess(NameKey(x), NameKey(s[0])) then [x] + s
    else [s[0]] + InsertByName(x, s[1..])
  }

  /** Inserting adds exactly the one element. */
  lemma {:induction false} InsertByNameCount(x: TagData, s: seq<TagData>)
    ensures multiset(InsertByName(x, s)) == multiset(s) + multiset{x}
    ensures |InsertByName(x, s)| == |s| + 1
    decreases |s|
  {
    if s != [] && !LexLess(NameKey(x), NameKey(s[0])) {
      InsertByNameCount(x, s[1..]);
      assert s == [s[0]] + s[1..];
    }
  }

  lemma {:induction false} InsertSorted(x: TagData, s: seq<TagData>)
    requires SortedByName(s)
    ensures SortedByName(InsertByName(x, s))
    decreases |s|
  {
    if s != [] && !LexLess(NameKey(x), NameKey(s[0])) {
      SortedTail(s);
      InsertSorted(x, s[1..]);
      var t := InsertByName(x, s[1..]);
      InsertByNameCount(x, s[1..]);
      var r := [s[0]] + t;
      assert InsertByName(x, s) == r;
      forall j | 0 < j < |r| ensures !LexLess(NameKey(r[j]), NameKey(r[0])) {
        var e := r[j];
        assert e in multiset(t);
        assert e == x || e in s[1..];
        if e != x {
          var m :| 0 <= m < |s[1..]| && s[1..][m] == e;
          assert s[m + 1] == e;
        }
      }
    } else if s != [] {
      var r := [x] + s;
      forall j | 0 < j < |r| ensures !LexLess(NameKey(r[j]), NameKey(r[0])) {
        if j > 1 && LexLess(NameKey(r[j]), NameKey(x)) {
          if NameKey(s[0]) != NameKey(s[j - 1]) {
            LexTotal(NameKey(s[0]), NameKey(s[j - 1]));
          }
          LexTransitive(NameKey(s[j - 1]), NameKey(x), NameKey(s[0]));
        }
        if j == 1 {
          LexTransitiveAsym(NameKey(x), NameKey(s[0]));
        }
      }
    }
  }

  /** `<` on strings is asymmetric. */
  lemma LexTransitiveAsym(a: string, b: string)
    requires LexLess(a, b)
    ensures !LexLess(b, a)
  {
    if LexLess(b, a) {
      LexTransitive(a, b, a);
      LexIrreflexive(a);
    }
  }

  /** `sorted(..., key=lambda t: t.name.lower())`: a stable insertion sort. */
  function SortByName(s: seq<TagData>): seq<TagData>
  {
    if s == [] then []
    else InsertByName(s[|s| - 1], SortByName(s[..|s| - 1]))
  }

  /** The sort gives a permutation of its input, sorted by lower-cased
      name. */
  lemma {:induction false} SortByNameSpec(s: seq<TagData>)
    ensures multiset(SortByName(s)) == multiset(s) && |SortByName(s)| == |s|
    ensures SortedByName(SortByName(s))
  {
    SortByNameCount(s);
    SortByNameSorted(s);
  }

  lemma {:induction false} SortByNameCount(s: seq<TagData>)
    ensures multiset(SortByName(s)) == multiset(s) && |SortByName(s)| == |s|
    decreases |s|
  {
    if s != [] {
      var p := s[..|s| - 1];
      var x := s[|s| - 1];
      var sp := SortByName(p);
      assert SortByName(s) == InsertByName(x, sp);
      SortByNameCount(p);
      InsertByNameCount(x, sp);
      assert s == p + [x];
    }
  }

  lemma {:induction false} SortByNameSorted(s: seq<TagData>)
    ensures SortedByName(SortByName(s))
    decreases |s|
  {
    if s != [] {
      var p := s[..|s| - 1];
      var sp := SortByName(p);
      assert SortByName(s) == InsertByName(s[|s| - 1], sp);
      SortByNameSorted(p);
      InsertSorted(s[|s| - 1], sp);
    }
  }

  /** The elements of `s` whose sort key is `k`, in order. */
  function WithKey(s: seq<TagData>, k: string): seq<TagData>
  {
    if s == [] then [] else (if NameKey(s[0]) == k then [s[0]] else []) + WithKey(s[1..], k)
  }

  lemma {:induction false} WithKeyAppend(a: seq<TagData>, b: seq<TagData>, k: string)
    ensures WithKey(a + b, k) == WithKey(a, k) + WithKey(b, k)
    decreases |a|
  {
    if a != [] {
      assert (a + b)[1..] == a[1..] + b;
      WithKeyAppend(a[1..], b, k);
    } else {
      assert a + b == b;
    }
  }

  lemma {:induction false} WithKeyNone(s: seq<TagData>, k: string)
    requires forall i :: 0 <= i < |s| ==> NameKey(s[i]) != k
    ensures WithKey(s, k) == []
    decreases |s|
  {
    if s != [] { WithKeyNone(s[1..], k); }
  }

  /** A sorted list stays sorted without its first element. */
  lemma SortedTail(s: seq<TagData>)
    requires s != [] && SortedByName(s)
    ensures SortedByName(s[1..])
  {
    assert forall i :: 0 <= i < |s| - 1 ==> s[1..][i] == s[i + 1];
  }

  /** A key below the first of a sorted list is below, so unequal to,
      every key in it. */
  lemma {:induction false} BelowAll(k: string, s: seq<TagData>)
    requires s != [] && SortedByName(s) && LexLess(k, NameKey(s[0]))
    ensures forall i :: 0 <= i < |s| ==> NameKey(s[i]) != k
  {
    forall i | 0 <= i < |s| ensures NameKey(s[i]) != k {
      if i > 0 && NameKey(s[0]) != NameKey(s[i]) {
        LexTotal(NameKey(s[0]), NameKey(s[i]));
        LexTransitive(k, NameKey(s[0]), NameKey(s[i]));
      }
      LexIrreflexive(k);
    }
  }

  /** Inserting into a sorted list puts `x` after every element of its key. */
  lemma {:induction false} InsertWithKey(x: TagData, s: seq<TagData>, k: string)
    requires SortedByName(s)
    ensures WithKey(InsertByName(x, s), k) == WithKey(s, k) + (if NameKey(x) == k then [x] else [])
    decreases |s|
  {
    if s == [] {
      assert InsertByName(x, s) == [x] && [x][1..] == [];
    } else if LexLess(NameKey(x), NameKey(s[0])) {
      assert InsertByName(x, s) == [x] + s;
      assert ([x] + s)[1..] == s;
      if NameKey(x) == k {
        BelowAll(k, s);
        WithKeyNone(s, k);
      }
    } else {
      SortedTail(s);
      InsertWithKey(x, s[1..], k);
      var t := InsertByName(x, s[1..]);
      var head := if NameKey(s[0]) == k then [s[0]] else [];
      assert InsertByName(x, s) == [s[0]] + t;
      assert ([s[0]] + t)[1..] == t;
      assert WithKey([s[0]] + t, k) == head + WithKey(t, k);
      assert WithKey(s, k) == head + WithKey(s[1..], k);
    }
  }

  /** The sort is stable: the elements of any one key keep their input
      order. */
  lemma {:induction false} SortStable(s: seq<TagData>, k: string)
    ensures WithKey(SortByName(s), k) == WithKey(s, k)
    decreases |s|
  {
    if s != [] {
      var p := s[..|s| - 1];
      var x := s[|s| - 1];
      var sp := SortByName(p);
      assert SortByName(s) == InsertByName(x, sp);
      SortStable(p, k);
      SortByNameSpec(p);
      InsertWithKey(x, sp, k);
      assert s == p + [x];
      WithKeyAppend(p, [x], k);
      assert [x][1..] == [];
    }
  }

  /** `AYTagSelector._normalize_tags`: one tag per input, sorted by
      lower-cased name. */
  function Normalize(raws: seq<RawTag>): (r: seq<TagData>)
    ensures |r| == |raws| && SortedByName(r)
    ensures multiset(r) == multiset(seq(|raws|, i requires 0 <= i < |raws| => ToTagData(raws[i])))
  {
    var tags := seq(|raws|, i requires 0 <= i < |raws| => ToTagData(raws[i]));
    SortByNameSpec(tags);
    SortByName(tags)
  }

  /** `tag_color_map.get(name, default)`: the colour of the LAST tag with
      the name, since later entries of the dict comprehension win. */
  function ColorOf(tags: seq<TagData>, name: string): (c: string)
    ensures (forall i :: 0 <= i < |tags| ==> tags[i].name != name) ==> c == DefaultColor
    ensures (exists i :: 0 <= i < |tags| && tags[i].name == name)
            ==> exists i :: 0 <= i < |tags| && tags[i].name == name && c == tags[i].color
                            && forall j :: i < j < |tags| ==> tags[j].name != name
  {
    if tags == [] then DefaultColor
    else if tags[|tags| - 1].name == name then tags[|tags| - 1].color
    else
      var p := tags[..|tags| - 1];
      assert forall i :: 0 <= i < |p| ==> p[i] == tags[i];
      ColorOf(p, name)
  }

  /** A badge beside the selector button: a selected tag, or the overflow
      count `"+n"`. */
  datatype Badge = TagBadge(name: string, color: string) | Overflow(text: string)

  /** The badge of the `i`-th selected name. */
  function NameBadge(tags: seq<TagData>, selected: seq<string>, i: nat): Badge
    requires i < |selected|
  {
    TagBadge(selected[i], ColorOf(tags, selected[i]))
  }

  /** `_update_badges`: one badge per selected name up to `maxVisible`,
      then, if names remain, one `"+n"` badge for the `n` hidden ones. */
  function Badges(tags: seq<TagData>, selected: seq<string>, maxVisible: int): seq<Badge>
  {
    var shown := if maxVisible < 0 then 0 else maxVisible;
    if |selected| <= shown then
      seq(|selected|, i requires 0 <= i < |selected| => NameBadge(tags, selected, i))
    else
      seq(shown, i requires 0 <= i < shown => NameBadge(tags, selected, i))
      + [Overflow("+" + NatToString(|selected| - maxVisible))]
  }

  /** How many badges there are, and what the overflow badge says: with
      `n` names and room for `m`, `min(n, m)` name badges, then one more
      reading `"+(n - m)"` when `n > m` (a negative `m` counting as 0). */
  lemma BadgesShape(tags: seq<TagData>, selected: seq<string>, maxVisible: int)
    ensures var b := Badges(tags, selected, maxVisible);
            var n := |selected|;
            var m := if maxVisible < 0 then 0 else maxVisible;
            && |b| == (if n <= m then n else m + 1)
            && (n > m ==> b[|b| - 1] == Overflow("+" + NatToString(n - maxVisible)))
            && forall i :: 0 <= i < |b| && i < m && i < n ==> b[i].TagBadge? && b[i].name == selected[i]
  {
  }

  /** Appends a name unless present. */
  function AddName(s: seq<string>, x: string): (r: seq<string>)
    ensures x in r && forall y :: y in r <==> y in s || y == x
  {
    if x in s then s else s + [x]
  }

  /** `list.remove(x)` guarded by `x in list`: drops the first occurrence. */
  function RemoveFirst(s: seq<string>, x: string): (r: seq<string>)
    ensures x !in s ==> r == s
    ensures x in s ==> |r| == |s| - 1
    ensures multiset(r) == multiset(s) - multiset{x}
  {
    if s == [] then []
    else
      assert s == [s[0]] + s[1..];
      if s[0] == x then s[1..] else [s[0]] + RemoveFirst(s[1..], x)
  }

  predicate NoDup(s: seq<string>)
  {
    forall i, j :: 0 <= i < j < |s| ==> s[i] != s[j]
  }

  /** Toggling keeps the selected names distinct, and removal of a name
      that had one occurrence leaves it unselected. */
  lemma ToggleNoDup(s: seq<string>, x: string)
    requires NoDup(s)
    ensures NoDup(AddName(s, x)) && NoDup(RemoveFirst(s, x))
    ensures x !in RemoveFirst(s, x)
  {
    RemoveFirstNoDup(s, x);
  }

  lemma NoDupTail(s: seq<string>)
    requires s != [] && NoDup(s)
    ensures NoDup(s[1..]) && s[0] !in s[1..]
  {
    assert forall i :: 0 <= i < |s| - 1 ==> s[1..][i] == s[i + 1];
  }

  lemma NoDupCons(a: string, t: seq<string>)
    requires a !in t && NoDup(t)
    ensures NoDup([a] + t)
  {
    assert forall i :: 0 < i <= |t| ==> ([a] + t)[i] == t[i - 1];
  }

  lemma {:induction false} RemoveFirstNoDup(s: seq<string>, x: string)
    requires NoDup(s)
    ensures NoDup(RemoveFirst(s, x)) && x !in RemoveFirst(s, x)
    decreases |s|
  {
    if s != [] {
      NoDupTail(s);
      if s[0] != x {
        RemoveFirstNoDup(s[1..], x);
        var t := RemoveFirst(s[1..], x);
        assert RemoveFirst(s, x) == [s[0]] + t;
        assert s[0] !in multiset(s[1..]);
        assert multiset(t) <= multiset(s[1..]);
        assert s[0] !in t by {
          assert s[0] !in multiset(t);
        }
        NoDupCons(s[0], t);
      } else {
        assert RemoveFirst(s, x) == s[1..];
      }
    }
  }

  /** Selecting a name that was not selected, then deselecting it, gives the
      list back. */
  lemma {:induction false} AddThenRemove(s: seq<string>, x: string)
    requires x !in s
    ensures RemoveFirst(AddName(s, x), x) == s
    decreases |s|
  {
    if s != [] {
      assert (s + [x])[1..] == s[1..] + [x];
      AddThenRemove(s[1..], x);
    }
  }

  /** The selected names that still name an available tag, in order. */
  function KeepAvailable(selected: seq<string>, tags: seq<TagData>): (r: seq<string>)
    ensures |r| <= |selected|
    ensures forall x :: x in r <==> x in selected && exists i :: 0 <= i < |tags| && tags[i].name == x
  {
    if selected == [] then []
    else
      var p := selected[..|selected| - 1];
      var x := selected[|selected| - 1];
      assert selected == p + [x];
      KeepAvailable(p, tags) + (if exists i :: 0 <= i < |tags| && tags[i].name == x then [x] else [])
  }

  /** Filtering keeps order: it distributes over concatenation. */
  lemma {:induction false} KeepAvailableAppend(a: seq<string>, b: seq<string>, tags: seq<TagData>)
    ensures KeepAvailable(a + b, tags) == KeepAvailable(a, tags) + KeepAvailable(b, tags)
    decreases |b|
  {
    if b == [] {
      assert a + b == a;
    } else {
      var q := b[..|b| - 1];
      assert (a + b)[..|a + b| - 1] == a + q;
      KeepAvailableAppend(a, q, tags);
    }
  }

  /** Some available tag has this name, ignoring ASCII case. */
  predicate HasNameIgnoringCase(tags: seq<TagData>, name: string)
  {
    exists i :: 0 <= i < |tags| && NameKey(tags[i]) == Lower(name)
  }

  class AYTagSelector {
    /** `_available_tags`. */
    var available: seq<TagData>
    /** `_selected_tags`. */
    var selected: seq<string>
    const maxVisible: int
    /** The badges currently laid out. */
    var badges: seq<Badge>
    /** Whether a dropdown is open (`_dropdown is not None`). */
    var dropdownOpen: bool
    /** Payloads of the `tags_changed` signals emitted so far. */
    var changes: seq<seq<string>>

    /** `AYTagSelector.__init__`. */
    constructor (raws: seq<RawTag>, selected0: seq<string>, maxVisible: int)
      ensures available == Normalize(raws) && selected == selected0
      ensures this.maxVisible == maxVisible && !dropdownOpen && changes == []
      ensures badges == Badges(available, selected, maxVisible)
    {
      available := Normalize(raws);
      selected := selected0;
      this.maxVisible := maxVisible;
      dropdownOpen := false;
      changes := [];
      badges := [];
      new;
      UpdateBadges();
    }

    /** `_update_badges`: rebuilds the badge row. */
    method UpdateBadges()
      modifies this
      ensures badges == Badges(available, selected, maxVisible)
      ensures available == old(available) && selected == old(selected)
      ensures dropdownOpen == old(dropdownOpen) && changes == old(changes)
    {
      var tags, names := available, selected;
      var b: seq<Badge> := [];
      var i := 0;
      while i < |names|
        invariant 0 <= i <= |names| && (i <= maxVisible || i == 0)
        invariant b == seq(i, j requires 0 <= j < i => NameBadge(tags, names, j))
      {
        if i >= maxVisible {
          b := b + [Overflow("+" + NatToString(|names| - maxVisible))];
          break;
        }
        b := b + [TagBadge(names[i], ColorOf(tags, names[i]))];
        i := i + 1;
      }
      badges := b;
    }

    /** `_on_tag_toggled`: a selected name is appended unless present; a
        deselected one is removed if present; then `tags_changed`. */
    method OnTagToggled(name: string, isSelected: bool)
      modifies this
      ensures selected == if isSelected then AddName(old(selected), name) else RemoveFirst(old(selected), name)
      ensures available == old(available) && dropdownOpen == old(dropdownOpen)
      ensures badges == Badges(available, selected, maxVisible)
      ensures changes == old(changes) + [selected]
    {
      if isSelected {
        if name !in selected {
          selected := selected + [name];
        }
      } else {
        if name in selected {
          selected := RemoveFirst(selected, name);
        }
      }
      UpdateBadges();
      changes := changes + [selected];
    }

    /** `_on_add_new_tag`: a name already present up to case changes
        nothing; otherwise it is added with the default colour, the list is
        re-sorted and the name selected. An open dropdown is then "refreshed":
        `close()` hides it without emitting `closed`, so `_dropdown` is still
        set and `_show_dropdown` takes its closing branch. The dropdown ends
        closed. */
    method OnAddNewTag(name: string)
      modifies this
      ensures HasNameIgnoringCase(old(available), name) ==>
                available == old(available) && selected == old(selected)
                && badges == old(badges) && changes == old(changes)
                && dropdownOpen == old(dropdownOpen)
      ensures !HasNameIgnoringCase(old(available), name) ==>
                available == SortByName(old(available) + [TagData(name, DefaultColor)])
                && selected == AddName(old(selected), name)
                && badges == Badges(available, selected, maxVisible)
                && changes == old(changes) + [selected]
                && !dropdownOpen
    {
      if HasNameIgnoringCase(available, name) {
        return;
      }
      available := SortByName(available + [TagData(name, DefaultColor)]);
      if name !in selected {
        selected := selected + [name];
      }
      UpdateBadges();
      changes := changes + [selected];
      if dropdownOpen {
        ToggleDropdown();
      }
    }

    /** `set_selected_tags`. */
    method SetSelectedTags(tags: seq<string>)
      modifies this
      ensures selected == tags && available == old(available)
      ensures badges == Badges(available, tags, maxVisible)
      ensures changes == old(changes) + [tags]
    {
      selected := tags;
      UpdateBadges();
      changes := changes + [selected];
    }

    /** `set_available_tags`: replaces the tags and keeps only the selected
        names still available, in order; no signal. */
    method SetAvailableTags(raws: seq<RawTag>)
      modifies this
      ensures available == Normalize(raws)
      ensures selected == KeepAvailable(old(selected), available)
      ensures badges == Badges(available, selected, maxVisible)
      ensures changes == old(changes)
    {
      available := Normalize(raws);
      selected := KeepAvailable(selected, available);
      UpdateBadges();
    }

    /** `_show_dropdown`: closes an open dropdown, or opens one. */
    method ToggleDropdown()
      modifies this
      ensures dropdownOpen == !old(dropdownOpen)
      ensures available == old(available) && selected == old(selected) && changes == old(changes)
      ensures badges == old(badges)
    {
      dropdownOpen := !dropdownOpen;
    }
  }

  /** Placeholder row of an empty dropdown. */
  const NoTagsText := "No available tags"
  /** `TagDropdown`'s height cap. */
  const DropdownMaxHeight := 400

  /** `_on_search_changed`: a row stays visible iff the lower-cased,
      stripped query is empty or occurs in the lower-cased name. */
  predicate MatchesSearch(text: string, name: string)
  {
    var q := Strip(Lower(text));
    q == [] || Contains(Lower(name), q)
  }

  /** `_adjust_height`: search row 40, margins 2 + 2, the visible rows, at
      most 400. */
  function DropdownHeight(rowsHeight: nat): (h: nat)
    ensures h <= DropdownMaxHeight
    ensures h == DropdownMaxHeight || h == 40 + rowsHeight + 4
    ensures 40 + rowsHeight + 4 <= DropdownMaxHeight ==> h == 40 + rowsHeight + 4
  {
    if 40 + rowsHeight + 4 < DropdownMaxHeight then 40 + rowsHeight + 4 else DropdownMaxHeight
  }

  /** The first tag whose name equals `text` ignoring case. */
  function FindIgnoringCase(tags: seq<TagData>, text: string): (r: Option<nat>)
    ensures r.Some? ==> r.value < |tags| && NameKey(tags[r.value]) == Lower(text)
                        && forall j :: 0 <= j < r.value ==> NameKey(tags[j]) != Lower(text)
    ensures r.None? ==> !HasNameIgnoringCase(tags, text)
  {
    if tags == [] then None
    else if NameKey(tags[0]) == Lower(text) then Some(0)
    else match FindIgnoringCase(tags[1..], text)
      case None => None
      case Some(i) => Some(i + 1)
  }

  /** Signals of the dropdown: `tag_toggled` and `add_new_tag`. */
  datatype DropdownEvent = TagToggled(name: string, isSelected: bool) | AddNewTag(name: string)

  /** The state after toggling row `name`: nothing for a name without a
      row; otherwise its check state flips, the selected set gains or loses
      the name accordingly and `tag_toggled` carries the new state. */
  predicate Toggled(checked: map<string, bool>, selected: set<string>, events: seq<DropdownEvent>,
                    name: string,
                    checked': map<string, bool>, selected': set<string>, events': seq<DropdownEvent>)
  {
    if name !in checked then checked' == checked && selected' == selected && events' == events
    else
      var now := !checked[name];
      && checked' == checked[name := now]
      && selected' == (if now then selected + {name} else selected - {name})
      && events' == events + [TagToggled(name, now)]
  }

  class TagDropdown {
    const tags: seq<TagData>
    /** `_selected_tags`. */
    var selectedSet: set<string>
    /** The check state of each row widget, by name. */
    var checked: map<string, bool>
    /** The visibility of each row widget, by name. */
    var visible: map<string, bool>
    /** Height of one tag row. */
    const rowHeight: nat
    var height: nat
    /** The search field's text. */
    var search: string
    var events: seq<DropdownEvent>

    /** Every tag row is checked iff its name is selected. */
    ghost predicate Valid()
      reads this
    {
      tags != [] ==> forall n :: n in checked ==> (checked[n] <==> n in selectedSet)
    }

    /** `TagDropdown.__init__` and `_populate_tags`: one row per tag name,
        checked iff selected; a lone disabled placeholder row when there are
        no tags. */
    constructor (tags: seq<TagData>, selected: seq<string>, rowHeight: nat)
      ensures this.tags == tags && selectedSet == set x | x in selected
      ensures tags == [] ==> checked == map[NoTagsText := false]
      ensures tags != [] ==> checked.Keys == (set t | t in tags :: t.name)
                             && forall n :: n in checked ==> (checked[n] <==> n in selected)
      ensures visible.Keys == checked.Keys && search == [] && events == []
      ensures Valid()
    {
      this.tags := tags;
      this.rowHeight := rowHeight;
      selectedSet := set x | x in selected;
      var c: map<string, bool>;
      if tags == [] {
        c := map[NoTagsText := false];
      } else {
        c := map t | t in (set t | t in tags :: t.name) :: t in selected;
      }
      checked := c;
      visible := map n | n in c :: true;
      height := 0;
      search := [];
      events := [];
    }

    /** `_on_search_changed`, then `_adjust_height`. */
    method SearchChanged(text: string)
      modifies this
      ensures search == text
      ensures visible.Keys == checked.Keys
      ensures forall n :: n in visible ==> (visible[n] <==> MatchesSearch(text, n))
      ensures height == DropdownHeight(rowHeight * |set n | n in visible && visible[n]|)
      ensures checked == old(checked) && selectedSet == old(selectedSet) && events == old(events)
    {
      search := text;
      visible := map n | n in checked :: MatchesSearch(text, n);
      height := DropdownHeight(rowHeight * |set n | n in visible && visible[n]|);
    }

    /** `_on_enter_pressed`: blank input is ignored; a tag matching it up to
        case is toggled; otherwise a new tag is requested. Either way the
        field is cleared, and since its text was not empty the clearing
        fires `textChanged("")`: every row shows again and the height
        follows. */
    method EnterPressed()
      modifies this
      ensures Strip(old(search)) == [] ==>
                search == old(search) && checked == old(checked) && visible == old(visible)
                && height == old(height) && selectedSet == old(selectedSet) && events == old(events)
      ensures Strip(old(search)) != [] ==>
                search == [] && checked.Keys == old(checked).Keys
                && visible == (map n | n in checked :: true)
                && height == DropdownHeight(rowHeight * |checked.Keys|)
      ensures Strip(old(search)) != [] && FindIgnoringCase(tags, Strip(old(search))).None? ==>
                checked == old(checked) && selectedSet == old(selectedSet)
                && events == old(events) + [AddNewTag(Strip(old(search)))]
      ensures Strip(old(search)) != [] && FindIgnoringCase(tags, Strip(old(search))).Some? ==>
                Toggled(old(checked), old(selectedSet), old(events),
                        tags[FindIgnoringCase(tags, Strip(old(search))).value].name,
                        checked, selectedSet, events)
      ensures old(Valid()) ==> Valid()
    {
      var text := Strip(search);
      if text == [] {
        return;
      }
      var found := FindIgnoringCase(tags, text);
      if found.Some? {
        Toggle(tags[found.value].name);
      } else {
        events := events + [AddNewTag(text)];
      }
      SearchChanged([]);
      forall n | n in checked ensures MatchesSearch([], n) {
        assert Lower([]) == [];
      }
      assert (set n | n in visible && visible[n]) == checked.Keys;
    }

    /** `_on_tag_clicked`, after the click has flipped the row's check
        state: the selected set follows it and `tag_toggled` is emitted. */
    method TagClicked(name: string)
      requires tags != []
      modifies this
      ensures Toggled(old(checked), old(selectedSet), old(events), name, checked, selectedSet, events)
      ensures search == old(search) && visible == old(visible)
      ensures old(Valid()) ==> Valid()
    {
      Toggle(name);
    }

    /** Flips a row's check state and makes the selected set follow it. */
    method Toggle(name: string)
      modifies this
      ensures Toggled(old(checked), old(selectedSet), old(events), name, checked, selectedSet, events)
      ensures search == old(search) && visible == old(visible)
      ensures old(Valid()) ==> Valid()
    {
      if name in checked {
        var now := !checked[name];
        checked := checked[name := now];
        if now {
          selectedSet := selectedSet + {name};
        } else {
          selectedSet := selectedSet - {name};
        }
        events := events + [TagToggled(name, now)];
      }
    }
  }
}
