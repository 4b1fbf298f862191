/** The "@" mention completer of the comment field and the mention and link
    highlighting of `format_comment_on_change`. The text edit is reduced to
    the text of the cursor's block, the cursor's position in it, and the
    completer popup's visible state; the document's character formats are
    the list of ranges painted after the reset to the normal format. */
module Completion {
  import opened Wrappers
  import opened Text

  // ---------------------------------------------------------------------
  // The completer
  // ---------------------------------------------------------------------

  /** The single user listed when the field has no users. */
  const NotAvailable := "not available"

  /** The full names the completer model lists: the users', or the single
      placeholder. */
  function CompleterNames(users: seq<string>): (r: seq<string>)
    ensures |r| >= 1
    ensures users != [] ==> r == users
    ensures users == [] ==> r == [NotAvailable]
  {
    if users == [] then [NotAvailable] else users
  }

  /** The popup rows for a completion prefix: the names that contain it up
      to ASCII case (`MatchContains`, case-insensitive), in model order. */
  function MatchingRows(names: seq<string>, prefix: string): (r: seq<string>)
    ensures |r| <= |names|
    ensures forall n :: n in r <==> n in names && Contains(Lower(n), Lower(prefix))
  {
    if names == [] then []
    else
      var rest := MatchingRows(names[1..], prefix);
      assert forall n :: n in names <==> n == names[0] || n in names[1..];
      if Contains(Lower(names[0]), Lower(prefix)) then [names[0]] + rest else rest
  }

  /** Position k holds the last '@' before position pos. */
  predicate LastAtBefore(text: string, k: nat, pos: nat)
    requires pos <= |text|
  {
    k < pos && text[k] == '@' && forall j :: k < j < pos ==> text[j] != '@'
  }

  /** What `on_completer_text_changed` does to the popup. */
  datatype PopupAction = Untouched | Hide | Show(prefix: string, at: nat)

  /** The decision of `on_completer_text_changed` for the cursor at `pos`
      in the block text: nothing without a completer or when read-only;
      otherwise the last '@' before the cursor decides. */
  function TextChanged(hasCompleter: bool, readOnly: bool, text: string, pos: nat): (r: PopupAction)
    requires pos <= |text|
    ensures !hasCompleter || readOnly <==> r == Untouched
    ensures r.Show? ==> r.at < pos && text[r.at] == '@' && r.prefix == text[r.at + 1..pos]
                        && '@' !in r.prefix && (r.prefix == [] || !IsSpace(r.prefix[0]))
    ensures r == Hide ==> forall k: nat :: LastAtBefore(text, k, pos) ==> k + 1 < pos && IsSpace(text[k + 1])
  {
    if !hasCompleter || readOnly then Untouched
    else
      match RFind(text, '@', 0, pos)
      case None => Hide
      case Some(at) =>
        var prefix := text[at + 1..pos];
        assert forall j :: 0 <= j < |prefix| ==> prefix[j] == text[at + 1 + j];
        if prefix == [] || !IsSpace(prefix[0]) then Show(prefix, at) else Hide
  }

  /** The popup is shown exactly when some '@' before the cursor has no
      other '@' between it and the cursor, and is followed by the cursor or
      by a non-whitespace character. */
  lemma TextChangedShown(hasCompleter: bool, readOnly: bool, text: string, pos: nat)
    requires pos <= |text|
    ensures TextChanged(hasCompleter, readOnly, text, pos).Show? <==>
              hasCompleter && !readOnly
              && exists k: nat :: LastAtBefore(text, k, pos) && (k + 1 == pos || !IsSpace(text[k + 1]))
  {
    if hasCompleter && !readOnly {
      var r := RFind(text, '@', 0, pos);
      if r.Some? {
        var at := r.value;
        assert LastAtBefore(text, at, pos);
        forall k: nat | LastAtBefore(text, k, pos)
          ensures k == at
        {
        }
        if at + 1 < pos {
          assert text[at + 1..pos][0] == text[at + 1];
        }
      }
    }
  }

  /** `show_completer_popup`: four rows high, as wide as the editor, and
      placed so that its bottom edge is the editor's top edge. */
  function PopupGeometry(editorX: int, editorY: int, editorWidth: int, itemHeight: int): (r: (int, int, int, int))
    ensures r.1 + r.3 == editorY && r.0 == editorX
    ensures r.2 == editorWidth && r.3 == MaxVisibleItems * itemHeight
  {
    var h := itemHeight * MaxVisibleItems;
    (editorX, editorY - h, editorWidth, h)
  }

  /** The completer's `maxVisibleItems`. */
  const MaxVisibleItems := 4

  /** `on_completer_activated` on the block text: the text from the last
      '@' before the cursor up to the cursor becomes "@" and the name, and
      the cursor ends after the name; nothing happens without such an '@'. */
  function Activate(text: string, pos: nat, name: string): (r: Option<(string, nat)>)
    requires pos <= |text|
    ensures r.None? <==> forall j :: 0 <= j < pos ==> text[j] != '@'
    ensures r.Some? ==> r.value.1 <= |r.value.0|
  {
    match RFind(text, '@', 0, pos)
    case None => None
    case Some(at) => Some((text[..at] + "@" + name + text[pos..], at + 1 + |name|))
  }

  /** Activation keeps the text before the '@' and after the cursor, puts
      "@" and the name between them, and leaves the cursor after the name. */
  lemma ActivateSpec(text: string, pos: nat, name: string)
    requires pos <= |text|
    requires Activate(text, pos, name).Some?
    ensures var (t, c) := Activate(text, pos, name).value;
            var at := c - |name| - 1;
            0 <= at < pos && text[at] == '@' && (forall j :: at < j < pos ==> text[j] != '@')
            && t[..at] == text[..at] && t[at..c] == "@" + name && t[c..] == text[pos..]
            && |t| == |text| - (pos - at) + 1 + |name|
  {
    var at := RFind(text, '@', 0, pos).value;
    var t := text[..at] + "@" + name + text[pos..];
    assert t[..at] == text[..at];
    assert t[at..at + 1 + |name|] == "@" + name;
    assert t[at + 1 + |name|..] == text[pos..];
  }

  /** After an activation with a name that holds no '@' and does not start
      with whitespace, the text-changed rule sees exactly that name as the
      completion prefix, at the same '@'. */
  lemma ActivateThenShown(text: string, pos: nat, name: string)
    requires pos <= |text|
    requires Activate(text, pos, name).Some?
    requires '@' !in name && (name == [] || !IsSpace(name[0]))
    ensures var (t, c) := Activate(text, pos, name).value;
            TextChanged(true, false, t, c) == Show(name, c - |name| - 1)
  {
    var at := RFind(text, '@', 0, pos).value;
    var (t, c) := Activate(text, pos, name).value;
    ActivateSpec(text, pos, name);
    assert t[at..c] == "@" + name;
    forall j | at < j < c ensures t[j] != '@' {
      assert t[j] == t[at..c][j - at] == name[j - at - 1];
    }
    assert t[at] == '@';
    var r := RFind(t, '@', 0, c);
    assert r == Some(at);
    assert t[at + 1..c] == t[at..c][1..] == name;
  }

  // ---------------------------------------------------------------------
  // Mention highlighting
  // ---------------------------------------------------------------------

  /** Which named group of `(?P<user>…)|(?P<link>…)|(?P<raw_link>…)` matched. */
  datatype Group = UserGroup | LinkGroup | RawLinkGroup

  datatype Match = Match(group: Group, start: nat, end: nat)

  predicate IsWordOrSpace(c: char) { IsWordChar(c) || IsSpace(c) }

  predicate NotNewline(c: char) { c != '\n' }

  /** A non-empty run of `\w`. */
  predicate Word(w: string)
  {
    w != [] && forall j :: 0 <= j < |w| ==> IsWordChar(w[j])
  }

  /** `@\w+( \w+)?` at position i: where the match ends. */
  function UserAt(s: string, i: nat): (r: Option<nat>)
    requires i <= |s|
    ensures r.Some? ==> i + 2 <= r.value <= |s|
  {
    if i < |s| && s[i] == '@' then
      var n := LeadCount(s[i + 1..], IsWordChar);
      if n == 0 then None
      else
        var e := i + 1 + n;
        if e < |s| && s[e] == ' ' then
          var m := LeadCount(s[e + 1..], IsWordChar);
          if m > 0 then Some(e + 1 + m) else Some(e)
        else Some(e)
    else None
  }

  /** A user match is "@" and one word, or "@", a word, a space and a
      word. */
  lemma UserAtShape(s: string, i: nat)
    requires i <= |s| && UserAt(s, i).Some?
    ensures var e := UserAt(s, i).value;
            s[i] == '@' &&
            ((Word(s[i + 1..e]))
             || (exists k :: i + 1 < k < e - 1 && s[k] == ' ' && Word(s[i + 1..k]) && Word(s[k + 1..e])))
  {
    var e := UserAt(s, i).value;
    var n := LeadCount(s[i + 1..], IsWordChar);
    var k := i + 1 + n;
    assert forall j :: i + 1 <= j < k ==> s[j] == s[i + 1..][j - i - 1];
    if e != k {
      var m := LeadCount(s[k + 1..], IsWordChar);
      assert forall j :: k + 1 <= j < e ==> s[j] == s[k + 1..][j - k - 1];
      assert Word(s[k + 1..e]);
    }
  }

  /** `\[[\w\s]+\]\(.+\)` at position i: the greedy `.+` runs to the last
      ')' on the line. Gives where the match ends. */
  function LinkAt(s: string, i: nat): (r: Option<nat>)
    requires i <= |s|
    ensures r.Some? ==> i + 6 <= r.value <= |s| && s[i] == '[' && s[r.value - 1] == ')'
  {
    if i < |s| && s[i] == '[' then
      var n := LeadCount(s[i + 1..], IsWordOrSpace);
      var k := i + 1 + n;
      if n > 0 && k + 1 < |s| && s[k] == ']' && s[k + 1] == '(' then
        var nl := k + 2 + LeadCount(s[k + 2..], NotNewline);
        if k + 3 <= nl then
          match RFind(s, ')', k + 3, nl)
          case Some(m) => Some(m + 1)
          case None => None
        else None
      else None
    else None
  }

  /** `https?://` at position i: where the match ends. */
  function RawLinkAt(s: string, i: nat): (r: Option<nat>)
    requires i <= |s|
    ensures r.Some? ==> i + 7 <= r.value <= |s|
  {
    if StartsWith(s[i..], "https://") then Some(i + 8)
    else if StartsWith(s[i..], "http://") then Some(i + 7)
    else None
  }

  /** The alternation tried at position i, branches in pattern order. */
  function MatchAt(s: string, i: nat): (r: Option<Match>)
    requires i <= |s|
    ensures r.Some? ==> r.value.start == i && i < r.value.end <= |s|
  {
    match UserAt(s, i)
    case Some(e) => Some(Match(UserGroup, i, e))
    case None =>
      match LinkAt(s, i)
      case Some(e) => Some(Match(LinkGroup, i, e))
      case None =>
        match RawLinkAt(s, i)
        case Some(e) => Some(Match(RawLinkGroup, i, e))
        case None => None
  }

  /** `re.finditer` of the mention pattern from position i on. */
  function Scan(s: string, i: nat): seq<Match>
    requires i <= |s|
    decreases |s| - i
  {
    if i == |s| then []
    else
      match MatchAt(s, i)
      case Some(m) => [m] + Scan(s, m.end)
      case None => Scan(s, i + 1)
  }

  /** Matches lie within the text, follow each other without overlapping,
      and each is what the pattern gives at its own start. */
  predicate Scanned(s: string, ms: seq<Match>, i: nat)
  {
    (forall k :: 0 <= k < |ms| ==> i <= ms[k].start < ms[k].end <= |s| && MatchAt(s, ms[k].start) == Some(ms[k]))
    && (forall a, b :: 0 <= a < b < |ms| ==> ms[a].end <= ms[b].start)
  }

  /** A match put in front of a scanned list that starts at its end. */
  lemma ScannedCons(s: string, m: Match, rest: seq<Match>, i: nat)
    requires i <= |s| && MatchAt(s, i) == Some(m)
    requires Scanned(s, rest, m.end)
    ensures Scanned(s, [m] + rest, i)
  {
    ScannedConsFound(s, m, rest, i);
    ScannedConsOrdered(m, rest);
  }

  lemma ScannedConsFound(s: string, m: Match, rest: seq<Match>, i: nat)
    requires i <= |s| && MatchAt(s, i) == Some(m)
    requires forall k :: 0 <= k < |rest| ==> m.end <= rest[k].start < rest[k].end <= |s| && MatchAt(s, rest[k].start) == Some(rest[k])
    ensures forall k :: 0 <= k < |[m] + rest| ==>
              i <= ([m] + rest)[k].start < ([m] + rest)[k].end <= |s| && MatchAt(s, ([m] + rest)[k].start) == Some(([m] + rest)[k])
  {
    var r := [m] + rest;
    forall k | 0 <= k < |r|
      ensures i <= r[k].start < r[k].end <= |s| && MatchAt(s, r[k].start) == Some(r[k])
    {
      if k > 0 { assert r[k] == rest[k - 1]; }
    }
  }

  lemma ScannedConsOrdered(m: Match, rest: seq<Match>)
    requires forall k :: 0 <= k < |rest| ==> m.end <= rest[k].start
    requires forall a, b :: 0 <= a < b < |rest| ==> rest[a].end <= rest[b].start
    requires m.start < m.end
    ensures forall a, b :: 0 <= a < b < |[m] + rest| ==> ([m] + rest)[a].end <= ([m] + rest)[b].start
  {
    var r := [m] + rest;
    forall a, b | 0 <= a < b < |r| ensures r[a].end <= r[b].start {
      assert r[b] == rest[b - 1];
      if a > 0 { assert r[a] == rest[a - 1]; }
    }
  }

  /** Skipping a position keeps the list scanned. */
  lemma ScannedFrom(s: string, ms: seq<Match>, i: nat)
    requires Scanned(s, ms, i + 1)
    ensures Scanned(s, ms, i)
  {
  }

  lemma {:induction false} ScanSpec(s: string, i: nat)
    requires i <= |s|
    ensures Scanned(s, Scan(s, i), i)
    decreases |s| - i
  {
    if i < |s| {
      match MatchAt(s, i)
      case Some(m) =>
        ScanSpec(s, m.end);
        ScannedCons(s, m, Scan(s, m.end), i);
      case None =>
        ScanSpec(s, i + 1);
        ScannedFrom(s, Scan(s, i + 1), i);
    }
  }

  /** The two character formats painted: the user format (link colour) and
      the url format (link colour, underlined). */
  datatype Style = UserStyle | UrlStyle

  /** A painted range: the cursor's anchor and position. */
  datatype Paint = Paint(style: Style, anchor: int, pos: int)

  /** The painting of one run: the ranges painted, in order, and whether
      it stopped on an exception. */
  datatype Painted = Painted(paints: seq<Paint>, failed: bool)

  /** `val.split()[-1]`, with "" for a blank value. */
  function LastWord(val: string): string
  {
    var ws := SplitWs(val);
    if ws == [] then "" else ws[|ws| - 1]
  }

  /** The painted range of a user match: the whole match for a known full
      name, otherwise the match less its last word. */
  function UserPaint(m: Match, val: string, users: seq<string>): Paint
    requires val != []
  {
    if val[1..] in users then Paint(UserStyle, m.start, m.end)
    else Paint(UserStyle, m.start, m.end - |LastWord(val)|)
  }

  /** `re.search(r"\[(.+)\]", val)` from position i on: the first '[' with
      a ']' after it on the same line, the greedy group running to the
      last such ']'. Gives the group's bounds. */
  function BracketGroup(val: string, i: nat): (r: Option<(nat, nat)>)
    requires i <= |val|
    ensures r.Some? ==> i < r.value.0 < r.value.1 < |val|
    decreases |val| - i
  {
    if i == |val| then None
    else if val[i] == '[' then
      var nl := i + 1 + LeadCount(val[i + 1..], NotNewline);
      if i + 2 <= nl then
        match RFind(val, ']', i + 2, nl)
        case Some(j) => Some((i + 1, j))
        case None => BracketGroup(val, i + 1)
      else BracketGroup(val, i + 1)
    else BracketGroup(val, i + 1)
  }

  /** Matches lie within the markdown text. */
  predicate InText(md: string, ms: seq<Match>)
  {
    forall k :: 0 <= k < |ms| ==> 1 <= ms[k].end - ms[k].start && ms[k].end <= |md|
  }

  /** One step of the painting loop of `format_comment_on_change`, with
      `xtra` markdown characters already counted: user and raw link ranges
      are taken as they are in the markdown text; a link range is moved
      back by `xtra` and covers its text, and `xtra` then grows by the
      link's length less its text, plus one. A link value without a
      bracketed group raises (`None`). Gives the range and the new `xtra`. */
  function PaintOne(md: string, m: Match, users: seq<string>, xtra: int): (r: Option<(Paint, int)>)
    requires m.start < m.end <= |md|
    ensures r.None? ==> m.group == LinkGroup
    ensures r.Some? && m.group != LinkGroup ==> r.value.1 == xtra && r.value.0.anchor == m.start
    ensures r.Some? && m.group == LinkGroup ==>
              r.value.0 == Paint(UrlStyle, m.start - xtra, r.value.0.pos) && r.value.0.pos - r.value.0.anchor < m.end - m.start
              && r.value.1 == xtra + (m.end - m.start) - (r.value.0.pos - r.value.0.anchor) + 1
  {
    var val := md[m.start..m.end];
    match m.group
    case UserGroup => Some((UserPaint(m, val, users), xtra))
    case RawLinkGroup => Some((Paint(UserStyle, m.start, m.end), xtra))
    case LinkGroup =>
      match BracketGroup(val, 0)
      case None => None
      case Some((a, b)) =>
        var name := val[a..b];
        Some((Paint(UrlStyle, m.start - xtra, m.start - xtra + |name|), xtra + |val| - |name| + 1))
  }

  /** The painting loop over the match list: one range per match, in
      order, until a step raises. */
  function Paints(md: string, ms: seq<Match>, users: seq<string>, xtra: int): (r: Painted)
    requires InText(md, ms)
    ensures !r.failed ==> |r.paints| == |ms|
    ensures |r.paints| <= |ms|
    decreases |ms|
  {
    if ms == [] then Painted([], false)
    else
      match PaintOne(md, ms[0], users, xtra)
      case None => Painted([], true)
      case Some((p, x)) =>
        var rest := Paints(md, ms[1..], users, x);
        Painted([p] + rest.paints, rest.failed)
  }

  /** A link match whose value has no bracketed group: painting it raises. */
  predicate BadLink(md: string, m: Match)
  {
    m.start <= m.end <= |md| && m.group == LinkGroup && BracketGroup(md[m.start..m.end], 0).None?
  }

  /** The painting loop fails exactly when some match is a link without a
      bracketed group. */
  lemma {:induction false} PaintsFailure(md: string, ms: seq<Match>, users: seq<string>, xtra: int)
    requires InText(md, ms)
    ensures Paints(md, ms, users, xtra).failed <==> exists k :: 0 <= k < |ms| && BadLink(md, ms[k])
    decreases |ms|
  {
    if ms != [] {
      assert ms[0].start < ms[0].end <= |md|;
      var step := PaintOne(md, ms[0], users, xtra);
      if step.None? {
        assert BadLink(md, ms[0]);
      } else {
        assert !BadLink(md, ms[0]);
        assert InText(md, ms[1..]) by {
          forall k | 0 <= k < |ms| - 1 ensures 1 <= ms[1..][k].end - ms[1..][k].start && ms[1..][k].end <= |md| {
            assert ms[1..][k] == ms[k + 1];
          }
        }
        PaintsFailure(md, ms[1..], users, step.value.1);
        if exists k :: 0 <= k < |ms| && BadLink(md, ms[k]) {
          var k :| 0 <= k < |ms| && BadLink(md, ms[k]);
          assert k > 0 && ms[1..][k - 1] == ms[k];
        }
        if exists k :: 0 <= k < |ms| - 1 && BadLink(md, ms[1..][k]) {
          var k :| 0 <= k < |ms| - 1 && BadLink(md, ms[1..][k]);
          assert ms[k + 1] == ms[1..][k];
        }
      }
    }
  }

  /** The loop of `format_on_change` over the matches: each match painted
      in turn, stopping at the first link without a bracketed group. */
  method PaintAll(md: string, ms: seq<Match>, users: seq<string>) returns (ps: seq<Paint>, failed: bool)
    requires InText(md, ms)
    ensures ps == Paints(md, ms, users, 0).paints && failed == Paints(md, ms, users, 0).failed
  {
    ghost var total := Paints(md, ms, users, 0);
    ps := [];
    var xtra := 0;
    assert ms[0..] == ms;
    for i := 0 to |ms|
      invariant InText(md, ms[i..])
      invariant ps + Paints(md, ms[i..], users, xtra).paints == total.paints
      invariant Paints(md, ms[i..], users, xtra).failed == total.failed
    {
      PaintsStep(md, ms, users, xtra, i);
      var step := PaintOne(md, ms[i], users, xtra);
      if step.None? {
        assert ps + [] == ps;
        return ps, true;
      }
      ps := ps + [step.value.0];
      xtra := step.value.1;
    }
    assert ms[|ms|..] == [];
    assert ps + [] == ps;
    failed := false;
  }

  /** One step of `Paints` from position `i`: the first match's paint,
      then the rest; or a failure. */
  lemma PaintsStep(md: string, ms: seq<Match>, users: seq<string>, xtra: int, i: nat)
    requires i < |ms| && InText(md, ms[i..])
    ensures ms[i].start < ms[i].end <= |md| && InText(md, ms[i + 1..])
    ensures PaintOne(md, ms[i], users, xtra).None? ==> Paints(md, ms[i..], users, xtra) == Painted([], true)
    ensures PaintOne(md, ms[i], users, xtra).Some? ==>
              var (p, x) := PaintOne(md, ms[i], users, xtra).value;
              Paints(md, ms[i..], users, xtra) ==
                Painted([p] + Paints(md, ms[i + 1..], users, x).paints, Paints(md, ms[i + 1..], users, x).failed)
  {
    assert ms[i..][0] == ms[i] && ms[i..][1..] == ms[i + 1..];
  }

  /** The painted range of a user mention starts at the '@'. It covers
      the whole match when the text after the '@' is a known full name.
      Otherwise one word gives an empty range, and two words give the '@',
      the first word and the space. */
  lemma MentionPaint(md: string, i: nat, users: seq<string>)
    requires i <= |md| && UserAt(md, i).Some?
    ensures var e := UserAt(md, i).value;
            var p := UserPaint(Match(UserGroup, i, e), md[i..e], users);
            p.style == UserStyle && p.anchor == i
            && (md[i + 1..e] in users ==> p.pos == e)
            && (md[i + 1..e] !in users && Word(md[i + 1..e]) ==> p.pos == i)
            && (md[i + 1..e] !in users && !Word(md[i + 1..e]) ==>
                  i + 2 < p.pos < e && md[p.pos - 1] == ' ' && Word(md[i + 1..p.pos - 1]) && Word(md[p.pos..e]))
  {
    var e := UserAt(md, i).value;
    var val := md[i..e];
    assert val[1..] == md[i + 1..e];
    if md[i + 1..e] !in users {
      UserAtShape(md, i);
      if Word(md[i + 1..e]) {
        OneWordPaint(val);
      } else {
        var k :| i + 1 < k < e - 1 && md[k] == ' ' && Word(md[i + 1..k]) && Word(md[k + 1..e]);
        TwoWordMention(md, i, k, e, users);
      }
    }
  }

  lemma TwoWordMention(md: string, i: nat, k: nat, e: nat, users: seq<string>)
    requires i + 1 < k < e - 1 && e <= |md| && md[i] == '@' && md[k] == ' '
    requires Word(md[i + 1..k]) && Word(md[k + 1..e]) && md[i + 1..e] !in users
    ensures var p := UserPaint(Match(UserGroup, i, e), md[i..e], users);
            i + 2 < p.pos < e && md[p.pos - 1] == ' ' && Word(md[i + 1..p.pos - 1]) && Word(md[p.pos..e])
  {
    var val := md[i..e];
    assert val[1..] == md[i + 1..e];
    TwoWordPaint(md, i, k, e);
    assert UserPaint(Match(UserGroup, i, e), val, users).pos == e - |LastWord(val)| == k + 1;
  }

  lemma OneWordPaint(val: string)
    requires |val| >= 1 && val[0] == '@' && Word(val[1..])
    ensures |LastWord(val)| == |val|
  {
    SplitWord(val);
  }

  lemma TwoWordPaint(md: string, i: nat, k: nat, e: nat)
    requires i + 1 < k < e - 1 && e <= |md| && md[i] == '@' && md[k] == ' '
    requires Word(md[i + 1..k]) && Word(md[k + 1..e])
    ensures |LastWord(md[i..e])| == e - k - 1
  {
    var head := md[i..k];
    assert head[1..] == md[i + 1..k];
    assert md[i..e] == head + " " + md[k + 1..e];
    SplitTwoWords(head, md[k + 1..e]);
  }

  /** "@" followed by a word splits into itself. */
  lemma SplitWord(val: string)
    requires |val| >= 1 && val[0] == '@' && Word(val[1..])
    ensures LastWord(val) == val
  {
    WordNoSpace(val);
    SplitWsWord(val, []);
    assert val + [] == val;
  }

  /** "@" and a word hold no whitespace. */
  lemma WordNoSpace(val: string)
    requires |val| >= 1 && val[0] == '@' && Word(val[1..])
    ensures NoSpace(val)
  {
    forall j | 0 <= j < |val| ensures !IsSpace(val[j]) {
      if j > 0 { assert val[j] == val[1..][j - 1]; }
    }
  }

  /** "@" and a word, a space and a word: the last word is the second. */
  lemma SplitTwoWords(head: string, w: string)
    requires |head| >= 1 && head[0] == '@' && Word(head[1..]) && Word(w)
    ensures LastWord(head + " " + w) == w
  {
    WordNoSpace(head);
    assert NoSpace(w);
    SplitWsTwo(head, w);
    assert head + " " + w == head + [' '] + w;
  }

  // ---------------------------------------------------------------------
  // The comment field
  // ---------------------------------------------------------------------

  /** The comment field with its completer: the text of the cursor's block,
      the cursor's position in it, the user list, the completer popup, and
      the painted mention ranges. */
  class CommentField {
    var block: string
    var cursor: nat
    var readOnly: bool
    /** Full names of `_user_list`. */
    var users: seq<string>
    /** Whether `setup_user_completer` has run. */
    var hasCompleter: bool
    /** The completer model's names. */
    var completerNames: seq<string>
    var popupVisible: bool
    var completionPrefix: string
    /** The popup's current row, if any. */
    var currentRow: Option<nat>
    /** Ranges painted by the last `format_comment_on_change`. */
    var paints: seq<Paint>
    /** Whether the document's signals are blocked. */
    var signalsBlocked: bool

    /** The cursor lies within its block. */
    predicate Valid()
      reads this
    {
      cursor <= |block|
    }

    constructor (users: seq<string>, readOnly: bool)
      ensures Valid() && block == [] && cursor == 0
      ensures this.users == users && this.readOnly == readOnly
      ensures !hasCompleter && !popupVisible && currentRow == None && paints == [] && !signalsBlocked
    {
      block := [];
      cursor := 0;
      this.readOnly := readOnly;
      this.users := users;
      hasCompleter := false;
      completerNames := [];
      popupVisible := false;
      completionPrefix := [];
      currentRow := None;
      paints := [];
      signalsBlocked := false;
    }

    /** `setup_user_completer`: the completer lists the users, or the
        placeholder. */
    method SetupCompleter()
      modifies this
      ensures hasCompleter && completerNames == CompleterNames(users)
      ensures block == old(block) && cursor == old(cursor) && users == old(users) && readOnly == old(readOnly)
      ensures popupVisible == old(popupVisible) && completionPrefix == old(completionPrefix)
      ensures currentRow == old(currentRow) && paints == old(paints) && signalsBlocked == old(signalsBlocked)
    {
      hasCompleter := true;
      completerNames := CompleterNames(users);
    }

    /** `on_users_updated`: without a completer nothing changes. */
    method UsersUpdated(newUsers: seq<string>)
      modifies this
      ensures users == newUsers
      ensures completerNames == if hasCompleter then CompleterNames(newUsers) else old(completerNames)
      ensures hasCompleter == old(hasCompleter) && block == old(block) && cursor == old(cursor)
      ensures readOnly == old(readOnly) && popupVisible == old(popupVisible)
      ensures completionPrefix == old(completionPrefix) && currentRow == old(currentRow)
      ensures paints == old(paints) && signalsBlocked == old(signalsBlocked)
    {
      users := newUsers;
      if hasCompleter {
        completerNames := CompleterNames(newUsers);
      }
    }

    /** `on_completer_text_changed`: shows the popup with the prefix after
        the last '@', or hides it. Setting the completion prefix re-filters
        the completer's model, which resets the popup's current index; the
        first row is then selected only when it is the only one. */
    method OnTextChanged()
      requires Valid()
      modifies this
      ensures Valid()
      ensures match TextChanged(hasCompleter, readOnly, block, cursor)
              case Untouched =>
                popupVisible == old(popupVisible) && completionPrefix == old(completionPrefix)
                && currentRow == old(currentRow)
              case Hide =>
                !popupVisible && completionPrefix == old(completionPrefix) && currentRow == old(currentRow)
              case Show(prefix, _) =>
                popupVisible && completionPrefix == prefix
                && currentRow == (if |MatchingRows(completerNames, prefix)| == 1 then Some(0) else None)
      ensures block == old(block) && cursor == old(cursor) && users == old(users) && readOnly == old(readOnly)
      ensures hasCompleter == old(hasCompleter) && completerNames == old(completerNames)
      ensures paints == old(paints) && signalsBlocked == old(signalsBlocked)
    {
      if !hasCompleter || readOnly {
        return;
      }
      var at := RFind(block, '@', 0, cursor);
      if at.None? {
        popupVisible := false;
        return;
      }
      var prefix := block[at.value + 1..cursor];
      if prefix == [] || !IsSpace(prefix[0]) {
        completionPrefix := prefix;
        popupVisible := true;
        currentRow := None;
        if |MatchingRows(completerNames, prefix)| == 1 {
          currentRow := Some(0);
        }
      } else {
        popupVisible := false;
      }
    }

    /** The user edits the text: the cursor's block and the cursor's
        position in it change, and nothing else; Qt then emits
        `textChanged`, whose handlers are `OnTextChanged` and
        `FormatOnChange`. */
    method SetText(newBlock: string, newCursor: nat)
      requires newCursor <= |newBlock|
      modifies this
      ensures Valid() && block == newBlock && cursor == newCursor
      ensures users == old(users) && readOnly == old(readOnly) && hasCompleter == old(hasCompleter)
      ensures completerNames == old(completerNames) && popupVisible == old(popupVisible)
      ensures completionPrefix == old(completionPrefix) && currentRow == old(currentRow)
      ensures paints == old(paints) && signalsBlocked == old(signalsBlocked)
    {
      block := newBlock;
      cursor := newCursor;
    }

    /** `on_completer_activated`: replaces the '@' and the prefix with "@"
        and the chosen name and hides the popup; without an '@' before the
        cursor nothing changes. */
    method OnActivated(name: string)
      requires Valid()
      modifies this
      ensures Valid()
      ensures Activate(old(block), old(cursor), name).None? ==>
                block == old(block) && cursor == old(cursor) && popupVisible == old(popupVisible)
      ensures Activate(old(block), old(cursor), name).Some? ==>
                (block, cursor) == Activate(old(block), old(cursor), name).value && !popupVisible
      ensures users == old(users) && readOnly == old(readOnly) && hasCompleter == old(hasCompleter)
      ensures completerNames == old(completerNames) && completionPrefix == old(completionPrefix)
      ensures currentRow == old(currentRow) && paints == old(paints) && signalsBlocked == old(signalsBlocked)
    {
      var at := RFind(block, '@', 0, cursor);
      if at.None? {
        return;
      }
      block := block[..at.value] + "@" + name + block[cursor..];
      cursor := at.value + 1 + |name|;
      popupVisible := false;
    }

    /** `on_completer_key_press`: Return or Enter while the popup is shown
        activates the current row's name, when there is one. */
    method KeyPress(isEnter: bool) returns (handled: bool)
      requires Valid()
      modifies this
      ensures Valid()
      ensures var rows := MatchingRows(old(completerNames), old(completionPrefix));
              handled <==> old(hasCompleter) && old(popupVisible) && isEnter && old(currentRow).Some?
                            && old(currentRow).value < |rows| && rows[old(currentRow).value] != []
      ensures !handled ==> block == old(block) && cursor == old(cursor) && popupVisible == old(popupVisible)
      ensures handled ==>
                var rows := MatchingRows(old(completerNames), old(completionPrefix));
                var act := Activate(old(block), old(cursor), rows[old(currentRow).value]);
                (act.Some? ==> (block, cursor) == act.value && !popupVisible)
                && (act.None? ==> block == old(block) && cursor == old(cursor))
      ensures users == old(users) && readOnly == old(readOnly) && hasCompleter == old(hasCompleter)
      ensures completerNames == old(completerNames) && completionPrefix == old(completionPrefix)
      ensures currentRow == old(currentRow) && paints == old(paints) && signalsBlocked == old(signalsBlocked)
    {
      handled := false;
      if !hasCompleter || !popupVisible || !isEnter {
        return;
      }
      var rows := MatchingRows(completerNames, completionPrefix);
      if currentRow.Some? && currentRow.value < |rows| && rows[currentRow.value] != [] {
        OnActivated(rows[currentRow.value]);
        handled := true;
      }
    }

    /** `format_comment_on_change` on the document's markdown `md`: the
        signals are blocked, every earlier format is reset, and the matches
        are painted in order. A link without a bracketed group raises,
        which leaves the signals blocked. */
    method FormatOnChange(md: string) returns (failed: bool)
      modifies this
      ensures InText(md, Scan(md, 0))
      ensures var r := Paints(md, Scan(md, 0), users, 0);
              paints == r.paints && failed == r.failed && signalsBlocked == failed
      ensures block == old(block) && cursor == old(cursor) && users == old(users) && readOnly == old(readOnly)
      ensures hasCompleter == old(hasCompleter) && completerNames == old(completerNames)
      ensures popupVisible == old(popupVisible) && completionPrefix == old(completionPrefix)
      ensures currentRow == old(currentRow)
    {
      signalsBlocked := true;
      var ms := Scan(md, 0);
      ScanInText(md);
      var ps;
      ps, failed := PaintAll(md, ms, users);
      paints := ps;
      signalsBlocked := failed;
    }
  }

  /** The scanned matches lie within the text. */
  lemma ScanInText(md: string)
    ensures InText(md, Scan(md, 0))
  {
    ScanSpec(md, 0);
  }
}
