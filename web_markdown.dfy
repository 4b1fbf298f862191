/** The web markdown dialect of the review site as the comment field reads
    it: five kinds of span found by regular expressions, the plain text that
    remains once their syntax is removed, and the ranges of that plain text
    that receive each span's character format. */
module WebMarkdown {
  import opened Wrappers
  import opened Text

  datatype Kind = H1 | Bold | Italic | Link | Code

  /** The order in which the kinds are searched for. */
  function Rank(k: Kind): nat
  {
    match k
    case H1 => 0
    case Bold => 1
    case Italic => 2
    case Link => 3
    case Code => 4
  }

  /** One entry of the parse: its kind, the span `[start, end)` of the
      source text, the visible content and, for a link, its url. */
  datatype Fmt = Fmt(kind: Kind, start: nat, end: nat, content: string, url: string)

  /** The delimiter of the three symmetric kinds. */
  function Delim(k: Kind): string
  {
    match k
    case Bold => "**"
    case Italic => "_"
    case Code => "`"
    case _ => ""
  }

  predicate IsDash(c: char) { c == '-' }

  predicate NotNewline(c: char) { c != '\n' }

  /** What the regular expression `.` accepts throughout. */
  predicate OneLine(s: string)
  {
    forall j :: 0 <= j < |s| ==> s[j] != '\n'
  }

  /** What the span of an entry the parse can return holds. */
  predicate Spans(text: string, f: Fmt)
  {
    f.start <= f.end <= |text| && f.content != [] && OneLine(f.content) &&
    match f.kind
    case H1 =>
      var k := f.start + |f.content|;
      f.url == [] && k + 3 <= f.end && text[f.start..k] == f.content && text[k] == '\n'
      && (forall j :: k < j < f.end ==> text[j] == '-')
      && (f.start == 0 || text[f.start - 1] == '\n')
      && (f.end == |text| || text[f.end] == '\n')
    case Link =>
      f.url != [] && OneLine(f.url) && text[f.start..f.end] == "[" + f.content + "](" + f.url + ")"
    case _ =>
      f.url == [] && text[f.start..f.end] == Delim(f.kind) + f.content + Delim(f.kind)
  }

  /** `d` occurs in `text` at position q. */
  predicate OccursAt(text: string, d: string, q: nat)
  {
    q + |d| <= |text| && text[q..q + |d|] == d
  }

  /** The lazy `.+?` followed by `d`, from position p: the first position at
      or after p where `d` occurs, unless a newline comes first. */
  function FindClose(text: string, d: string, p: nat): (r: Option<nat>)
    ensures r.Some? ==> p <= r.value && OccursAt(text, d, r.value)
    ensures r.Some? ==> forall j :: p <= j < r.value ==> text[j] != '\n'
    ensures r.Some? ==> forall j :: p <= j < r.value ==> !OccursAt(text, d, j)
    ensures r.None? ==> forall q :: p <= q && OccursAt(text, d, q) ==> exists j :: p <= j < q && text[j] == '\n'
    decreases |text| - p
  {
    if OccursAt(text, d, p) then Some(p)
    else if p < |text| && text[p] != '\n' then FindClose(text, d, p + 1)
    else
      assert forall q :: p <= q && OccursAt(text, d, q) ==> p < q && text[p] == '\n';
      None
  }

  /** `d(.+?)d` tried at position i: where the closing delimiter starts. */
  function PairAt(text: string, d: string, i: nat): (r: Option<nat>)
    ensures r.Some? ==> i + |d| < r.value && r.value + |d| <= |text|
                        && text[i..i + |d|] == d && text[r.value..r.value + |d|] == d
                        && forall j :: i + |d| <= j < r.value ==> text[j] != '\n'
  {
    if i + |d| < |text| && text[i..i + |d|] == d && text[i + |d|] != '\n'
    then FindClose(text, d, i + |d| + 1)
    else None
  }

  /** `re.finditer` for one symmetric kind, from position i on. */
  function ScanPairs(text: string, kind: Kind, i: nat): seq<Fmt>
    decreases |text| - i
  {
    if i >= |text| then []
    else
      var d := Delim(kind);
      match PairAt(text, d, i)
      case Some(k) => [Fmt(kind, i, k + |d|, text[i + |d|..k], "")] + ScanPairs(text, kind, k + |d|)
      case None => ScanPairs(text, kind, i + 1)
  }

  /** After the `[` of a link: the lazy `(.+?)\]\((.+?)\)`, which tries a
      longer link text whenever the url part fails. Gives where `](` and the
      closing `)` are. */
  function FindLinkEnd(text: string, k: nat): (r: Option<(nat, nat)>)
    ensures r.Some? ==> k <= r.value.0 && r.value.0 + 2 < r.value.1 < |text|
                        && text[r.value.0..r.value.0 + 2] == "](" && text[r.value.1] == ')'
                        && (forall j :: k <= j < r.value.0 ==> text[j] != '\n')
                        && (forall j :: r.value.0 + 2 <= j < r.value.1 ==> text[j] != '\n')
    decreases |text| - k
  {
    if k + 2 < |text| && text[k..k + 2] == "](" && text[k + 2] != '\n'
       && FindClose(text, ")", k + 3).Some?
    then
      var m := FindClose(text, ")", k + 3).value;
      assert text[m] == text[m..m + 1][0];
      Some((k, m))
    else if k < |text| && text[k] != '\n' then FindLinkEnd(text, k + 1)
    else None
  }

  /** `\[(.+?)\]\((.+?)\)` tried at position i. */
  function LinkAt(text: string, i: nat): (r: Option<(nat, nat)>)
    ensures r.Some? ==> i + 1 < r.value.0 && r.value.0 + 2 < r.value.1 < |text|
                        && text[i] == '[' && text[r.value.0..r.value.0 + 2] == "](" && text[r.value.1] == ')'
                        && (forall j :: i + 1 <= j < r.value.0 ==> text[j] != '\n')
                        && (forall j :: r.value.0 + 2 <= j < r.value.1 ==> text[j] != '\n')
  {
    if i + 1 < |text| && text[i] == '[' && text[i + 1] != '\n' then FindLinkEnd(text, i + 2)
    else None
  }

  /** `re.finditer` for links, from position i on. */
  function ScanLinks(text: string, i: nat): seq<Fmt>
    decreases |text| - i
  {
    if i >= |text| then []
    else
      match LinkAt(text, i)
      case Some((k, m)) => [Fmt(Link, i, m + 1, text[i + 1..k], text[k + 2..m])] + ScanLinks(text, m + 1)
      case None => ScanLinks(text, i + 1)
  }

  /** `^(.+?)\n-{2,}$` in multi-line mode, tried at position i: the newline
      that ends the heading text and the end of the line of dashes. */
  function H1At(text: string, i: nat): (r: Option<(nat, nat)>)
    requires i <= |text|
    ensures r.Some? ==> i < r.value.0 && r.value.0 + 3 <= r.value.1 <= |text|
                        && (i == 0 || text[i - 1] == '\n') && text[r.value.0] == '\n'
                        && OneLine(text[i..r.value.0])
                        && (forall j :: r.value.0 < j < r.value.1 ==> text[j] == '-')
                        && (r.value.1 == |text| || text[r.value.1] == '\n')
  {
    if i > 0 && text[i - 1] != '\n' then None
    else
      var n := LeadCount(text[i..], NotNewline);
      var k := i + n;
      if n == 0 || k == |text| then None
      else
        assert text[k] == text[i..][n];
        var dashes := LeadCount(text[k + 1..], IsDash);
        var e := k + 1 + dashes;
        assert forall j :: k < j < e ==> text[j] == text[k + 1..][j - k - 1];
        if dashes >= 2 && (e == |text| || text[e] == '\n') then Some((k, e)) else None
  }

  /** `re.finditer` for headings, from position i on. */
  function ScanH1(text: string, i: nat): seq<Fmt>
    decreases |text| - i
  {
    if i >= |text| then []
    else
      match H1At(text, i)
      case Some((k, e)) => [Fmt(H1, i, e, text[i..k], "")] + ScanH1(text, e)
      case None => ScanH1(text, i + 1)
  }

  /** `parse_markdown_from_web`: every heading, then every bold span, italic
      span, link and code span, each kind in text order. */
  function Parse(text: string): seq<Fmt>
  {
    ScanH1(text, 0) + ScanPairs(text, Bold, 0) + ScanPairs(text, Italic, 0)
    + ScanLinks(text, 0) + ScanPairs(text, Code, 0)
  }

  /** Entries of one kind follow each other without overlapping. */
  predicate Ordered(r: seq<Fmt>)
  {
    forall a, b :: 0 <= a < b < |r| ==> r[a].end <= r[b].start
  }

  /** Kinds come in search order, and entries of one kind do not overlap
      and follow text order. */
  predicate Grouped(r: seq<Fmt>)
  {
    (forall a, b :: 0 <= a < b < |r| ==> Rank(r[a].kind) <= Rank(r[b].kind))
    && (forall a, b :: 0 <= a < b < |r| && r[a].kind == r[b].kind ==> r[a].end <= r[b].start)
  }

  /** An entry ending before every entry of an ordered list can lead it. */
  lemma OrderedCons(f: Fmt, rest: seq<Fmt>)
    requires Ordered(rest)
    requires forall g :: g in rest ==> f.end <= g.start
    ensures Ordered([f] + rest)
  {
    var r := [f] + rest;
    forall a, b | 0 <= a < b < |r| ensures r[a].end <= r[b].start {
      assert r[b] == rest[b - 1];
      if a > 0 {
        assert r[a] == rest[a - 1];
      } else {
        assert rest[b - 1] in rest;
      }
    }
  }

  lemma SliceSplit(s: string, a: nat, b: nat, c: nat, e: nat)
    requires a <= b <= c <= e <= |s|
    ensures s[a..e] == s[a..b] + s[b..c] + s[c..e]
  {
  }

  /** A match of `d(.+?)d` spans its content between the delimiters. */
  lemma PairSpans(text: string, kind: Kind, i: nat, k: nat)
    requires kind == Bold || kind == Italic || kind == Code
    requires PairAt(text, Delim(kind), i) == Some(k)
    ensures Spans(text, Fmt(kind, i, k + |Delim(kind)|, text[i + |Delim(kind)|..k], ""))
  {
    var d := Delim(kind);
    var c := text[i + |d|..k];
    SliceSplit(text, i, i + |d|, k, k + |d|);
    assert text[i..k + |d|] == d + c + d;
    assert OneLine(c) by {
      forall j | 0 <= j < |c| ensures c[j] != '\n' {
        assert c[j] == text[i + |d| + j];
      }
    }
  }

  /** A scan result, entry by entry: each entry is of the kind, starts at or
      after `i`, spans its text, and the rest starts after it ends. */
  predicate Chain(text: string, kind: Kind, i: nat, r: seq<Fmt>)
    decreases |r|
  {
    r == [] || (r[0].kind == kind && i <= r[0].start && Spans(text, r[0]) && Chain(text, kind, r[0].end, r[1..]))
  }

  /** What a chain says about all of its entries. */
  lemma {:induction false} ChainFacts(text: string, kind: Kind, i: nat, r: seq<Fmt>)
    requires Chain(text, kind, i, r)
    ensures forall f :: f in r ==> f.kind == kind && i <= f.start && Spans(text, f)
    ensures Ordered(r)
    decreases |r|
  {
    if r != [] {
      var rest := r[1..];
      ChainFacts(text, kind, r[0].end, rest);
      assert r == [r[0]] + rest;
      OrderedCons(r[0], rest);
      forall f | f in r ensures f.kind == kind && i <= f.start && Spans(text, f) {
        if f != r[0] {
          assert f in rest;
        }
      }
    }
  }

  lemma {:induction false} ScanPairsChain(text: string, kind: Kind, i: nat)
    requires kind == Bold || kind == Italic || kind == Code
    ensures Chain(text, kind, i, ScanPairs(text, kind, i))
    decreases |text| - i
  {
    var d := Delim(kind);
    if i < |text| {
      match PairAt(text, d, i)
      case Some(k) =>
        ScanPairsChain(text, kind, k + |d|);
        PairSpans(text, kind, i, k);
      case None =>
        ScanPairsChain(text, kind, i + 1);
    }
  }

  lemma ScanPairsSpec(text: string, kind: Kind, i: nat)
    requires kind == Bold || kind == Italic || kind == Code
    ensures forall f :: f in ScanPairs(text, kind, i) ==> f.kind == kind && i <= f.start && Spans(text, f)
    ensures Ordered(ScanPairs(text, kind, i))
  {
    ScanPairsChain(text, kind, i);
    ChainFacts(text, kind, i, ScanPairs(text, kind, i));
  }

  /** A match of `\[(.+?)\]\((.+?)\)` spans its text and url. */
  lemma LinkSpans(text: string, i: nat, k: nat, m: nat)
    requires LinkAt(text, i) == Some((k, m))
    ensures Spans(text, Fmt(Link, i, m + 1, text[i + 1..k], text[k + 2..m]))
  {
    var c, u := text[i + 1..k], text[k + 2..m];
    var whole := text[i..m + 1];
    assert whole == [text[i]] + c + text[k..k + 2] + u + [text[m]] by {
      SliceSplit(text, i, i + 1, k, k + 2);
      SliceSplit(text, i, k + 2, m, m + 1);
      assert text[i..i + 1] == [text[i]] && text[m..m + 1] == [text[m]];
    }
    assert OneLine(c) by {
      forall j | 0 <= j < |c| ensures c[j] != '\n' {
        assert c[j] == text[i + 1 + j];
      }
    }
    assert OneLine(u) by {
      forall j | 0 <= j < |u| ensures u[j] != '\n' {
        assert u[j] == text[k + 2 + j];
      }
    }
  }

  lemma {:induction false} ScanLinksChain(text: string, i: nat)
    ensures Chain(text, Link, i, ScanLinks(text, i))
    decreases |text| - i
  {
    if i < |text| {
      match LinkAt(text, i)
      case Some((k, m)) =>
        ScanLinksChain(text, m + 1);
        LinkSpans(text, i, k, m);
      case None =>
        ScanLinksChain(text, i + 1);
    }
  }

  lemma ScanLinksSpec(text: string, i: nat)
    ensures forall f :: f in ScanLinks(text, i) ==> f.kind == Link && i <= f.start && Spans(text, f)
    ensures Ordered(ScanLinks(text, i))
  {
    ScanLinksChain(text, i);
    ChainFacts(text, Link, i, ScanLinks(text, i));
  }

  /** A match of `^(.+?)\n-{2,}$` spans its heading text and its dashes. */
  lemma H1Spans(text: string, i: nat, k: nat, e: nat)
    requires i <= |text| && H1At(text, i) == Some((k, e))
    ensures Spans(text, Fmt(H1, i, e, text[i..k], ""))
  {
  }

  lemma {:induction false} ScanH1Chain(text: string, i: nat)
    ensures Chain(text, H1, i, ScanH1(text, i))
    decreases |text| - i
  {
    if i < |text| {
      match H1At(text, i)
      case Some((k, e)) =>
        ScanH1Chain(text, e);
        H1Spans(text, i, k, e);
      case None =>
        ScanH1Chain(text, i + 1);
    }
  }

  lemma ScanH1Spec(text: string, i: nat)
    ensures forall f :: f in ScanH1(text, i) ==> f.kind == H1 && i <= f.start && Spans(text, f)
    ensures Ordered(ScanH1(text, i))
  {
    ScanH1Chain(text, i);
    ChainFacts(text, H1, i, ScanH1(text, i));
  }

  /** Every entry spans its delimited content. */
  predicate AllSpan(text: string, r: seq<Fmt>)
  {
    forall a :: 0 <= a < |r| ==> Spans(text, r[a])
  }

  /** Every entry's kind is searched no later than the n-th. */
  predicate RankAtMost(r: seq<Fmt>, n: nat)
  {
    forall a :: 0 <= a < |r| ==> Rank(r[a].kind) <= n
  }

  /** Every entry's kind is searched after the n-th. */
  predicate RankAbove(r: seq<Fmt>, n: nat)
  {
    forall a :: 0 <= a < |r| ==> n < Rank(r[a].kind)
  }

  /** The facts about one scanner's result as index-based predicates. */
  lemma OneKind(text: string, r: seq<Fmt>, kind: Kind)
    requires forall f :: f in r ==> f.kind == kind && Spans(text, f)
    requires Ordered(r)
    ensures Grouped(r) && AllSpan(text, r)
    ensures RankAtMost(r, Rank(kind)) && (Rank(kind) > 0 ==> RankAbove(r, Rank(kind) - 1))
  {
    assert forall a :: 0 <= a < |r| ==> r[a] in r;
  }

  /** Two grouped lists, the kinds of the first all searched before those of
      the second, concatenate to a grouped list. */
  lemma GroupedAppend(x: seq<Fmt>, y: seq<Fmt>, n: nat)
    requires Grouped(x) && Grouped(y) && RankAtMost(x, n) && RankAbove(y, n)
    ensures Grouped(x + y)
  {
    var r := x + y;
    forall a, b | 0 <= a < b < |r| ensures Rank(r[a].kind) <= Rank(r[b].kind) {
      if b < |x| {
        assert r[a] == x[a] && r[b] == x[b];
      } else if a >= |x| {
        assert r[a] == y[a - |x|] && r[b] == y[b - |x|];
      } else {
        assert r[a] == x[a] && r[b] == y[b - |x|];
      }
    }
    forall a, b | 0 <= a < b < |r| && r[a].kind == r[b].kind ensures r[a].end <= r[b].start {
      if b < |x| {
        assert r[a] == x[a] && r[b] == x[b];
      } else if a >= |x| {
        assert r[a] == y[a - |x|] && r[b] == y[b - |x|];
      } else {
        assert false;
      }
    }
  }

  lemma AppendFacts(text: string, x: seq<Fmt>, y: seq<Fmt>, n: nat)
    requires AllSpan(text, x) && AllSpan(text, y) && RankAtMost(x, n) && RankAtMost(y, n)
    ensures AllSpan(text, x + y) && RankAtMost(x + y, n)
  {
    forall a | 0 <= a < |x + y| ensures Spans(text, (x + y)[a]) && Rank((x + y)[a].kind) <= n {
      if a < |x| { assert (x + y)[a] == x[a]; } else { assert (x + y)[a] == y[a - |x|]; }
    }
  }

  /** Every entry of the parse spans its delimited content; the kinds come
      in the order heading, bold, italic, link, code; within a kind the
      entries do not overlap and follow text order. */
  lemma ParseSpec(text: string)
    ensures AllSpan(text, Parse(text))
    ensures Grouped(Parse(text))
  {
    var h, b, i, l, c := ScanH1(text, 0), ScanPairs(text, Bold, 0), ScanPairs(text, Italic, 0),
                         ScanLinks(text, 0), ScanPairs(text, Code, 0);
    ScanH1Spec(text, 0);
    ScanPairsSpec(text, Bold, 0);
    ScanPairsSpec(text, Italic, 0);
    ScanLinksSpec(text, 0);
    ScanPairsSpec(text, Code, 0);
    OneKind(text, h, H1);
    OneKind(text, b, Bold);
    OneKind(text, i, Italic);
    OneKind(text, l, Link);
    OneKind(text, c, Code);
    GroupedAppend(h, b, 0);
    AppendFacts(text, h, b, 1);
    GroupedAppend(h + b, i, 1);
    AppendFacts(text, h + b, i, 2);
    GroupedAppend(h + b + i, l, 2);
    AppendFacts(text, h + b + i, l, 3);
    GroupedAppend(h + b + i + l, c, 3);
    AppendFacts(text, h + b + i + l, c, 4);
  }

  // ---- Sorting by start ----

  /** Stable insertion for `sort(key=start)`: x goes before the first entry
      that starts after it. */
  function InsertAsc(s: seq<Fmt>, x: Fmt): (r: seq<Fmt>)
    ensures multiset(r) == multiset(s) + multiset{x}
  {
    if s == [] || x.start < s[0].start then [x] + s
    else
      assert s == [s[0]] + s[1..];
      [s[0]] + InsertAsc(s[1..], x)
  }

  /** Stable insertion for `sort(key=start, reverse=True)`: x goes after the
      last entry that starts no earlier than it. */
  function InsertDesc(s: seq<Fmt>, x: Fmt): (r: seq<Fmt>)
    ensures multiset(r) == multiset(s) + multiset{x}
  {
    if s == [] || s[|s| - 1].start >= x.start then s + [x]
    else
      assert s == s[..|s| - 1] + [s[|s| - 1]];
      InsertDesc(s[..|s| - 1], x) + [s[|s| - 1]]
  }

  /** `list.sort` keyed on the start, ascending or descending; stable in
      both directions, as Python's sort is. */
  function SortByStart(s: seq<Fmt>, descending: bool): (r: seq<Fmt>)
    ensures multiset(r) == multiset(s)
  {
    if s == [] then []
    else
      assert s == s[..|s| - 1] + [s[|s| - 1]];
      var t := SortByStart(s[..|s| - 1], descending);
      if descending then InsertDesc(t, s[|s| - 1]) else InsertAsc(t, s[|s| - 1])
  }

  predicate SortedAsc(r: seq<Fmt>)
  {
    forall a, b :: 0 <= a < b < |r| ==> r[a].start <= r[b].start
  }

  predicate SortedDesc(r: seq<Fmt>)
  {
    forall a, b :: 0 <= a < b < |r| ==> r[a].start >= r[b].start
  }

  lemma {:induction false} InsertAscSorted(s: seq<Fmt>, x: Fmt)
    requires SortedAsc(s)
    ensures SortedAsc(InsertAsc(s, x))
    decreases |s|
  {
    if s != [] && x.start >= s[0].start {
      InsertAscSorted(s[1..], x);
      var t := InsertAsc(s[1..], x);
      forall y | y in t ensures s[0].start <= y.start {
        assert y in multiset(t);
        if y != x {
          assert y in s[1..];
        }
      }
      var r := [s[0]] + t;
      forall a, b | 0 <= a < b < |r| ensures r[a].start <= r[b].start {
        assert r[b] == t[b - 1];
        if a > 0 { assert r[a] == t[a - 1]; } else { assert t[b - 1] in t; }
      }
    }
  }

  lemma {:induction false} InsertDescSorted(s: seq<Fmt>, x: Fmt)
    requires SortedDesc(s)
    ensures SortedDesc(InsertDesc(s, x))
    decreases |s|
  {
    if s != [] && s[|s| - 1].start < x.start {
      var init, last := s[..|s| - 1], s[|s| - 1];
      InsertDescSorted(init, x);
      var t := InsertDesc(init, x);
      forall y | y in t ensures y.start >= last.start {
        assert y in multiset(t);
        if y != x {
          assert y in init;
        }
      }
      var r := t + [last];
      forall a, b | 0 <= a < b < |r| ensures r[a].start >= r[b].start {
        assert r[a] == t[a];
        if b < |t| { assert r[b] == t[b]; } else { assert t[a] in t; }
      }
    }
  }

  /** The sort orders by start in the direction asked for. */
  lemma {:induction false} SortByStartSorted(s: seq<Fmt>, descending: bool)
    ensures descending ==> SortedDesc(SortByStart(s, descending))
    ensures !descending ==> SortedAsc(SortByStart(s, descending))
    decreases |s|
  {
    if s != [] {
      SortByStartSorted(s[..|s| - 1], descending);
      var t := SortByStart(s[..|s| - 1], descending);
      if descending { InsertDescSorted(t, s[|s| - 1]); } else { InsertAscSorted(t, s[|s| - 1]); }
    }
  }

  /** The reverse of a sequence. */
  function Rev(s: seq<Fmt>): (r: seq<Fmt>)
    ensures |r| == |s|
  {
    if s == [] then [] else Rev(s[1..]) + [s[0]]
  }

  /** When x's start differs from every other start, inserting it into the
      reversal descending is reversing the ascending insertion. */
  lemma {:induction false} InsertDescRev(t: seq<Fmt>, x: Fmt)
    requires forall y :: y in t ==> y.start != x.start
    ensures InsertDesc(Rev(t), x) == Rev(InsertAsc(t, x))
    decreases |t|
  {
    if t == [] {
      assert Rev([x]) == Rev([x][1..]) + [x];
    } else {
      var t0, t' := t[0], t[1..];
      assert Rev(t) == Rev(t') + [t0];
      assert (Rev(t') + [t0])[..|Rev(t)| - 1] == Rev(t');
      if x.start < t0.start {
        assert InsertAsc(t, x) == [x] + t;
        assert ([x] + t)[1..] == t;
      } else {
        assert t' == t[1..] && forall y :: y in t' ==> y in t;
        InsertDescRev(t', x);
        var u := InsertAsc(t', x);
        assert InsertAsc(t, x) == [t0] + u;
        assert ([t0] + u)[1..] == u;
      }
    }
  }

  /** Starts are pairwise distinct. */
  predicate DistinctStarts(s: seq<Fmt>)
  {
    forall a, b :: 0 <= a < b < |s| ==> s[a].start != s[b].start
  }

  /** With distinct starts, the descending sort is the reversed ascending
      sort. */
  lemma {:induction false} SortDescIsRevAsc(s: seq<Fmt>)
    requires DistinctStarts(s)
    ensures SortByStart(s, true) == Rev(SortByStart(s, false))
    decreases |s|
  {
    if s != [] {
      var init, last := s[..|s| - 1], s[|s| - 1];
      assert DistinctStarts(init) by {
        forall a, b | 0 <= a < b < |init| ensures init[a].start != init[b].start {
          assert init[a] == s[a] && init[b] == s[b];
        }
      }
      SortDescIsRevAsc(init);
      var t := SortByStart(init, false);
      forall y | y in t ensures y.start != last.start {
        assert y in multiset(t);
        assert y in init;
        var j :| 0 <= j < |init| && init[j] == y;
        assert s[j] == y;
      }
      InsertDescRev(t, last);
    }
  }

  // ---- The plain text ----

  /** `plain[:start] + content + plain[end:]`, with Python's clamping of
      slice bounds beyond the end. */
  function ReplaceSpan(t: string, f: Fmt): string
  {
    var a := if f.start <= |t| then f.start else |t|;
    var b := if f.end <= |t| then f.end else |t|;
    t[..a] + f.content + t[b..]
  }

  /** The spans replaced by their content one after the other, in the order
      given. */
  function StripSyntax(t: string, ds: seq<Fmt>): string
    decreases |ds|
  {
    if ds == [] then t else StripSyntax(ReplaceSpan(t, ds[0]), ds[1..])
  }

  /** Entries follow each other without overlapping. */
  predicate Disjoint(fs: seq<Fmt>)
  {
    forall a, b :: 0 <= a < b < |fs| ==> fs[a].end <= fs[b].start
  }

  /** Every entry lies within the first `bound` characters and its span is at
      least as long as its content. */
  predicate Placed(fs: seq<Fmt>, bound: nat)
  {
    forall a :: 0 <= a < |fs| ==> fs[a].start + |fs[a].content| <= fs[a].end <= bound
  }

  lemma RevLast(s: seq<Fmt>, x: Fmt)
    ensures Rev(s + [x]) == [x] + Rev(s)
  {
    if s != [] {
      assert (s + [x])[1..] == s[1..] + [x];
      RevLast(s[1..], x);
    } else {
      assert Rev([x]) == Rev([x][1..]) + [x];
    }
  }

  /** Replacing spans that lie in the first `bound` characters leaves the
      rest of the text alone. */
  lemma {:induction false} StripPrefix(t: string, gs: seq<Fmt>, bound: nat)
    requires Disjoint(gs) && Placed(gs, bound) && bound <= |t|
    ensures StripSyntax(t, Rev(gs)) == StripSyntax(t[..bound], Rev(gs)) + t[bound..]
    decreases |gs|, 1
  {
    if gs != [] {
      var init, last := gs[..|gs| - 1], gs[|gs| - 1];
      assert Placed(gs, |t|);
      StripLast(t, gs);
      StripLast(t[..bound], gs);
      SliceJoin(t, bound, last.start, last.end);
      var head := StripSyntax(t[..last.start], Rev(init));
      assert head + (last.content + t[..bound][last.end..]) + t[bound..]
             == head + (last.content + t[last.end..]);
    }
  }

  /** Cutting a text at `bound` and joining it again around a span inside
      the first part. */
  lemma SliceJoin(t: string, bound: nat, s: nat, e: nat)
    requires s <= e <= bound <= |t|
    ensures t[..bound][..s] == t[..s]
    ensures t[..bound][e..] + t[bound..] == t[e..]
  {
  }

  /** Dropping the last of ordered spans leaves ordered spans that end
      before it starts. */
  lemma InitPlaced(gs: seq<Fmt>, bound: nat)
    requires gs != [] && Disjoint(gs) && Placed(gs, bound)
    ensures Disjoint(gs[..|gs| - 1]) && Placed(gs[..|gs| - 1], gs[|gs| - 1].start)
  {
    var init := gs[..|gs| - 1];
    forall a | 0 <= a < |init| ensures init[a] == gs[a] { }
  }

  /** Replacing a span within the text: the text before it, the content, the
      text after it. */
  lemma ReplaceWithin(t: string, f: Fmt)
    requires f.start <= f.end <= |t|
    ensures ReplaceSpan(t, f)[..f.start] == t[..f.start]
    ensures ReplaceSpan(t, f)[f.start..] == f.content + t[f.end..]
    ensures |ReplaceSpan(t, f)| >= f.start
  {
  }

  /** Removing the syntax of ordered, non-overlapping spans, last one first:
      the text before the last span with the earlier spans removed, its
      content, then the text after it. */
  lemma {:induction false} StripLast(t: string, gs: seq<Fmt>)
    requires gs != [] && Disjoint(gs) && Placed(gs, |t|)
    ensures var init, last := gs[..|gs| - 1], gs[|gs| - 1];
            StripSyntax(t, Rev(gs)) == StripSyntax(t[..last.start], Rev(init)) + (last.content + t[last.end..])
    decreases |gs|, 0
  {
    var init, last := gs[..|gs| - 1], gs[|gs| - 1];
    assert gs == init + [last];
    RevLast(init, last);
    InitPlaced(gs, |t|);
    var r1 := ReplaceSpan(t, last);
    ReplaceWithin(t, last);
    assert StripSyntax(t, Rev(gs)) == StripSyntax(r1, Rev(init));
    StripPrefix(r1, init, last.start);
  }

  /** How many characters of syntax an entry's span holds beyond its content. */
  function SyntaxLen(f: Fmt): int
  {
    f.end - f.start - |f.content|
  }

  /** The syntax characters of all the entries. */
  function SyntaxTotal(fs: seq<Fmt>): int
  {
    if fs == [] then 0 else SyntaxLen(fs[0]) + SyntaxTotal(fs[1..])
  }

  lemma {:induction false} SyntaxTotalAppend(a: seq<Fmt>, b: seq<Fmt>)
    ensures SyntaxTotal(a + b) == SyntaxTotal(a) + SyntaxTotal(b)
    decreases |a|
  {
    if a != [] {
      assert (a + b)[1..] == a[1..] + b;
      SyntaxTotalAppend(a[1..], b);
    } else {
      assert a + b == b;
    }
  }

  /** Removing the syntax shortens the text by exactly the syntax characters. */
  lemma {:induction false} StripLength(t: string, gs: seq<Fmt>)
    requires Disjoint(gs) && Placed(gs, |t|)
    ensures |StripSyntax(t, Rev(gs))| == |t| - SyntaxTotal(gs)
    decreases |gs|
  {
    if gs != [] {
      var init, last := gs[..|gs| - 1], gs[|gs| - 1];
      StripLast(t, gs);
      InitPlaced(gs, |t|);
      StripLength(t[..last.start], init);
      assert gs == init + [last];
      SyntaxTotalAppend(init, [last]);
      assert SyntaxTotal([last]) == SyntaxLen(last) + SyntaxTotal([last][1..]);
    }
  }

  // ---- Formatting ranges ----

  /** One element of the formatting list: the kind, the range of the plain
      text it formats and, for a link, its url. */
  datatype Range = Range(kind: Kind, start: int, end: int, url: string)

  /** The range of an entry's content once `offset` syntax characters before
      it are gone. */
  function RangeOf(f: Fmt, offset: int): Range
  {
    Range(f.kind, f.start - offset, f.start - offset + |f.content|, f.url)
  }

  /** The formatting list of the spans in ascending order, the offset
      growing by each span's syntax length. */
  function Ranges(fs: seq<Fmt>, offset: int): (r: seq<Range>)
    ensures |r| == |fs|
  {
    if fs == [] then [] else [RangeOf(fs[0], offset)] + Ranges(fs[1..], offset + SyntaxLen(fs[0]))
  }

  /** The i-th range sits at the entry's start less every syntax character
      before it. */
  lemma {:induction false} RangesAt(fs: seq<Fmt>, offset: int, i: nat)
    requires i < |fs|
    ensures Ranges(fs, offset)[i] == RangeOf(fs[i], offset + SyntaxTotal(fs[..i]))
    decreases i
  {
    if i > 0 {
      RangesAt(fs[1..], offset + SyntaxLen(fs[0]), i - 1);
      assert fs[..i][1..] == fs[1..][..i - 1];
      assert fs[..i] != [];
    } else {
      assert fs[..0] == [];
    }
  }

  /** Ordered, non-overlapping spans: each range of the formatting list
      covers exactly its span's content in the plain text. */
  lemma {:induction false} RangesLocate(t: string, fs: seq<Fmt>)
    requires Disjoint(fs) && Placed(fs, |t|)
    ensures var plain := StripSyntax(t, Rev(fs));
            var rs := Ranges(fs, 0);
            forall i :: 0 <= i < |fs| ==>
              0 <= rs[i].start <= rs[i].end <= |plain| && plain[rs[i].start..rs[i].end] == fs[i].content
    decreases |fs|
  {
    if fs != [] {
      var plain := StripSyntax(t, Rev(fs));
      var rs := Ranges(fs, 0);
      var init, last := fs[..|fs| - 1], fs[|fs| - 1];
      StripLast(t, fs);
      InitPlaced(fs, |t|);
      var head := StripSyntax(t[..last.start], Rev(init));
      StripLength(t[..last.start], init);
      RangesLocate(t[..last.start], init);
      assert plain == head + (last.content + t[last.end..]);
      forall i | 0 <= i < |fs|
        ensures 0 <= rs[i].start <= rs[i].end <= |plain| && plain[rs[i].start..rs[i].end] == fs[i].content
      {
        RangesAt(fs, 0, i);
        if i == |fs| - 1 {
          assert fs[..i] == init;
          assert rs[i].start == |head|;
        } else {
          RangesAt(init, 0, i);
          assert init[..i] == fs[..i] && init[i] == fs[i];
          assert rs[i] == Ranges(init, 0)[i];
          assert plain[rs[i].start..rs[i].end] == head[rs[i].start..rs[i].end];
        }
      }
    }
  }

  // ---- The parse, sorted and stripped ----

  /** Two spans do not overlap. */
  predicate Apart(x: Fmt, y: Fmt)
  {
    x.end <= y.start || y.end <= x.start
  }

  /** No two entries overlap. */
  predicate NoOverlap(s: seq<Fmt>)
  {
    forall a, b :: 0 <= a < b < |s| ==> Apart(s[a], s[b])
  }

  lemma {:induction false} InsertAscNoOverlap(t: seq<Fmt>, x: Fmt)
    requires NoOverlap(t)
    requires forall y :: y in t ==> Apart(x, y)
    ensures NoOverlap(InsertAsc(t, x))
    decreases |t|
  {
    var r := InsertAsc(t, x);
    if t == [] || x.start < t[0].start {
      forall a, b | 0 <= a < b < |r| ensures Apart(r[a], r[b]) {
        assert r[b] == t[b - 1];
        if a > 0 { assert r[a] == t[a - 1]; } else { assert t[b - 1] in t; }
      }
    } else {
      var t0, u := t[0], InsertAsc(t[1..], x);
      assert NoOverlap(t[1..]) by {
        forall a, b | 0 <= a < b < |t[1..]| ensures Apart(t[1..][a], t[1..][b]) {
          assert t[1..][a] == t[a + 1] && t[1..][b] == t[b + 1];
        }
      }
      assert forall y :: y in t[1..] ==> y in t;
      InsertAscNoOverlap(t[1..], x);
      assert r == [t0] + u;
      forall y | y in u ensures Apart(t0, y) {
        assert y in multiset(u);
        if y != x {
          assert y in t[1..];
          var j :| 0 <= j < |t[1..]| && t[1..][j] == y;
          assert t[j + 1] == y;
        } else {
          assert t0 in t;
        }
      }
      forall a, b | 0 <= a < b < |r| ensures Apart(r[a], r[b]) {
        assert r[b] == u[b - 1];
        if a > 0 { assert r[a] == u[a - 1]; } else { assert u[b - 1] in u; }
      }
    }
  }

  /** The ascending sort keeps spans from overlapping. */
  lemma {:induction false} SortAscNoOverlap(s: seq<Fmt>)
    requires NoOverlap(s)
    ensures NoOverlap(SortByStart(s, false))
    decreases |s|
  {
    if s != [] {
      var init, last := s[..|s| - 1], s[|s| - 1];
      assert NoOverlap(init) by {
        forall a, b | 0 <= a < b < |init| ensures Apart(init[a], init[b]) {
          assert init[a] == s[a] && init[b] == s[b];
        }
      }
      SortAscNoOverlap(init);
      var t := SortByStart(init, false);
      forall y | y in t ensures Apart(last, y) {
        assert y in multiset(t);
        assert y in init;
        var j :| 0 <= j < |init| && init[j] == y;
        assert s[j] == y;
      }
      InsertAscNoOverlap(t, last);
    }
  }

  /** A span the parse returns holds more than its content. */
  lemma SpansProper(text: string, f: Fmt)
    requires Spans(text, f)
    ensures f.start + |f.content| < f.end <= |text|
  {
    match f.kind
    case H1 =>
    case Link =>
      assert |text[f.start..f.end]| == |"[" + f.content + "](" + f.url + ")"|;
    case _ =>
      assert |text[f.start..f.end]| == |Delim(f.kind) + f.content + Delim(f.kind)|;
  }

  /** Every span holds more than its content and lies in the first `bound`
      characters. */
  predicate Proper(s: seq<Fmt>, bound: nat)
  {
    forall a :: 0 <= a < |s| ==> s[a].start + |s[a].content| < s[a].end <= bound
  }

  lemma ParseProper(text: string)
    ensures Proper(Parse(text), |text|)
  {
    var p := Parse(text);
    ParseSpec(text);
    forall a | 0 <= a < |p| ensures p[a].start + |p[a].content| < p[a].end <= |text| {
      SpansProper(text, p[a]);
    }
  }

  lemma ProperPerm(s: seq<Fmt>, t: seq<Fmt>, bound: nat)
    requires multiset(s) == multiset(t) && Proper(s, bound)
    ensures Proper(t, bound)
  {
    forall a | 0 <= a < |t| ensures t[a].start + |t[a].content| < t[a].end <= bound {
      assert t[a] in multiset(s);
      var j :| 0 <= j < |s| && s[j] == t[a];
    }
  }

  lemma ProperDisjoint(fs: seq<Fmt>, bound: nat)
    requires SortedAsc(fs) && NoOverlap(fs) && Proper(fs, bound)
    ensures Disjoint(fs) && Placed(fs, bound)
  {
  }

  /** When no two spans of the parse overlap, each range of the formatting
      list covers exactly its span's content in the plain text. */
  lemma PlainTextRanges(text: string)
    requires NoOverlap(Parse(text))
    ensures var fs := SortByStart(Parse(text), false);
            var plain := StripSyntax(text, SortByStart(Parse(text), true));
            var rs := Ranges(fs, 0);
            forall i :: 0 <= i < |fs| ==>
              0 <= rs[i].start <= rs[i].end <= |plain| && plain[rs[i].start..rs[i].end] == fs[i].content
  {
    var p := Parse(text);
    ParseProper(text);
    assert DistinctStarts(p);
    SortDescIsRevAsc(p);
    var fs := SortByStart(p, false);
    SortByStartSorted(p, false);
    SortAscNoOverlap(p);
    ProperPerm(p, fs, |text|);
    ProperDisjoint(fs, |text|);
    RangesLocate(text, fs);
  }

  /** The first loop of `apply_web_markdown_formatting`: each span, in the
      order given, replaced by its content. */
  method RemoveSyntax(text: string, formats: seq<Fmt>) returns (plain: string)
    ensures plain == StripSyntax(text, formats)
  {
    plain := text;
    for i := 0 to |formats|
      invariant StripSyntax(plain, formats[i..]) == StripSyntax(text, formats)
    {
      assert formats[i..][1..] == formats[i + 1..];
      plain := ReplaceSpan(plain, formats[i]);
    }
    assert formats[|formats|..] == [];
  }

  /** The second loop of `apply_web_markdown_formatting`: each span's range,
      the offset growing by the per-kind syntax length as written, which for
      a link also counts the link text. */
  method FormatList(sorted: seq<Fmt>) returns (ranges: seq<Range>)
    ensures ranges == RangesAsWritten(sorted, 0)
  {
    ranges := [];
    var offset := 0;
    for i := 0 to |sorted|
      invariant ranges + RangesAsWritten(sorted[i..], offset) == RangesAsWritten(sorted, 0)
    {
      RangesAsWrittenAt(sorted, i, offset);
      ranges := ranges + [RangeOf(sorted[i], offset)];
      offset := offset + SyntaxLenAsWritten(sorted[i]);
    }
    assert sorted[|sorted|..] == [];
  }

  /** The list as written from position `i` on: that span's range, then the
      rest at the offset moved past its syntax. */
  lemma RangesAsWrittenAt(fs: seq<Fmt>, i: nat, offset: int)
    requires i < |fs|
    ensures RangesAsWritten(fs[i..], offset)
            == [RangeOf(fs[i], offset)] + RangesAsWritten(fs[i + 1..], offset + SyntaxLenAsWritten(fs[i]))
  {
    assert fs[i..][1..] == fs[i + 1..];
  }

  /** `apply_web_markdown_formatting` without the Qt formats: the plain
      text, built by replacing the spans from the highest start down, and the
      formatting list as the code builds it over the spans in ascending
      order. Without links it is the corrected list, so each range then
      covers its span's content in the plain text. */
  method ApplyWebMarkdown(text: string) returns (plain: string, ranges: seq<Range>)
    ensures plain == StripSyntax(text, SortByStart(Parse(text), true))
    ensures ranges == RangesAsWritten(SortByStart(Parse(text), false), 0)
    ensures NoOverlap(Parse(text)) && LinkFree(Parse(text)) ==>
              forall i :: 0 <= i < |ranges| ==>
                0 <= ranges[i].start <= ranges[i].end <= |plain|
                && plain[ranges[i].start..ranges[i].end] == SortByStart(Parse(text), false)[i].content
  {
    var formats := Parse(text);
    plain := RemoveSyntax(text, SortByStart(formats, true));
    ranges := FormatList(SortByStart(formats, false));
    if NoOverlap(formats) && LinkFree(formats) {
      PlainTextRanges(text);
      ParseSpec(text);
      var fs := SortByStart(formats, false);
      SortKeepsLinkFree(text, formats, fs);
      RangesAsWrittenAgree(text, fs, 0);
    }
  }

  /** No entry is a link. */
  predicate LinkFree(fs: seq<Fmt>)
  {
    forall i :: 0 <= i < |fs| ==> fs[i].kind != Link
  }

  /** Reordering the spans keeps them spans of the text and link-free. */
  lemma SortKeepsLinkFree(text: string, s: seq<Fmt>, t: seq<Fmt>)
    requires multiset(s) == multiset(t) && AllSpan(text, s) && LinkFree(s)
    ensures AllSpan(text, t) && LinkFree(t)
  {
    forall a | 0 <= a < |t| ensures Spans(text, t[a]) && t[a].kind != Link {
      assert t[a] in multiset(s);
      var j :| 0 <= j < |s| && s[j] == t[a];
    }
  }

  /** Without links the formatting list as written is the corrected one. */
  lemma {:induction false} RangesAsWrittenAgree(text: string, fs: seq<Fmt>, offset: int)
    requires AllSpan(text, fs) && LinkFree(fs)
    ensures RangesAsWritten(fs, offset) == Ranges(fs, offset)
    decreases |fs|
  {
    if fs != [] {
      assert fs[0].kind != Link && Spans(text, fs[0]);
      SyntaxLenByKind(text, fs[0]);
      TailLinkFree(text, fs);
      RangesAsWrittenAgree(text, fs[1..], offset + SyntaxLen(fs[0]));
    }
  }

  lemma TailLinkFree(text: string, fs: seq<Fmt>)
    requires fs != [] && AllSpan(text, fs) && LinkFree(fs)
    ensures AllSpan(text, fs[1..]) && LinkFree(fs[1..])
  {
    forall a | 0 <= a < |fs[1..]| ensures Spans(text, fs[1..][a]) && fs[1..][a].kind != Link {
      assert fs[1..][a] == fs[a + 1];
    }
  }

  // ---- The link offset as written ----

  /** The syntax length the formatting loop adds per kind, as written: for a
      link it counts the link text, which stays in the plain text, on top of
      the url and the four bracket characters. */
  function SyntaxLenAsWritten(f: Fmt): int
  {
    match f.kind
    case H1 => f.end - f.start - |f.content|
    case Bold => 4
    case Italic => 2
    case Code => 2
    case Link => |f.content| + |f.url| + 4
  }

  /** The formatting list as written. */
  function RangesAsWritten(fs: seq<Fmt>, offset: int): (r: seq<Range>)
    ensures |r| == |fs|
  {
    if fs == [] then []
    else [RangeOf(fs[0], offset)] + RangesAsWritten(fs[1..], offset + SyntaxLenAsWritten(fs[0]))
  }

  /** For every span of the parse the written per-kind lengths agree with
      the span's syntax, except that a link's is too large by its text. */
  lemma SyntaxLenByKind(text: string, f: Fmt)
    requires Spans(text, f)
    ensures f.kind != Link ==> SyntaxLenAsWritten(f) == SyntaxLen(f)
    ensures f.kind == Link ==> SyntaxLen(f) == |f.url| + 4
                               && SyntaxLenAsWritten(f) == SyntaxLen(f) + |f.content|
  {
    match f.kind
    case H1 =>
    case Link =>
      assert |text[f.start..f.end]| == |"[" + f.content + "](" + f.url + ")"|;
    case _ =>
      assert |text[f.start..f.end]| == |Delim(f.kind) + f.content + Delim(f.kind)|;
  }

  /** A text without newlines has no heading. */
  lemma {:induction false} ScanH1OneLine(text: string, i: nat)
    requires OneLine(text)
    ensures ScanH1(text, i) == []
    decreases |text| - i
  {
    if i < |text| {
      assert H1At(text, i).None?;
      ScanH1OneLine(text, i + 1);
    }
  }

  /** The scan of a symmetric kind skips positions where its delimiter
      cannot start. */
  lemma {:induction false} ScanPairsSkip(text: string, kind: Kind, i: nat, j: nat)
    requires kind == Bold || kind == Italic || kind == Code
    requires i <= j <= |text|
    requires forall q :: i <= q < j ==> text[q] != Delim(kind)[0]
    ensures ScanPairs(text, kind, i) == ScanPairs(text, kind, j)
    decreases j - i
  {
    if i < j {
      var d := Delim(kind);
      assert i + |d| <= |text| ==> text[i..i + |d|][0] == text[i];
      ScanPairsSkip(text, kind, i + 1, j);
    }
  }

  /** The link scan skips positions that do not hold `[`. */
  lemma {:induction false} ScanLinksSkip(text: string, i: nat, j: nat)
    requires i <= j <= |text|
    requires forall q :: i <= q < j ==> text[q] != '['
    ensures ScanLinks(text, i) == ScanLinks(text, j)
    decreases j - i
  {
    if i < j {
      ScanLinksSkip(text, i + 1, j);
    }
  }

  /** The bold span of the example text. */
  lemma ExampleBold(text: string)
    requires text == "[a](u) **b**"
    ensures ScanPairs(text, Bold, 0) == [Fmt(Bold, 7, 12, "b", "")]
  {
    ScanPairsSkip(text, Bold, 0, 7);
    assert FindClose(text, "**", 10) == Some(10);
    assert PairAt(text, "**", 7) == Some(10);
    assert text[9..10] == "b" && Delim(Bold) == "**";
    assert ScanPairs(text, Bold, 12) == [];
  }

  /** The link of the example text. */
  lemma ExampleLink(text: string)
    requires text == "[a](u) **b**"
    ensures ScanLinks(text, 0) == [Fmt(Link, 0, 6, "a", "u")]
  {
    assert FindClose(text, ")", 5) == Some(5);
    assert FindLinkEnd(text, 2) == Some((2, 5));
    assert LinkAt(text, 0) == Some((2, 5));
    ScanLinksSkip(text, 6, 12);
    assert text[1..2] == "a" && text[4..5] == "u";
    assert ScanLinks(text, 12) == [];
  }

  /** The example text has no heading, italic or code span. */
  lemma ExampleNone(text: string)
    requires text == "[a](u) **b**"
    ensures ScanH1(text, 0) == [] && ScanPairs(text, Italic, 0) == [] && ScanPairs(text, Code, 0) == []
  {
    assert OneLine(text);
    ScanH1OneLine(text, 0);
    ScanPairsSkip(text, Italic, 0, 12);
    ScanPairsSkip(text, Code, 0, 12);
  }

  /** The example text holds a link and then a bold span. */
  lemma ExampleParse(text: string)
    requires text == "[a](u) **b**"
    ensures Parse(text) == [Fmt(Bold, 7, 12, "b", ""), Fmt(Link, 0, 6, "a", "u")]
  {
    ExampleNone(text);
    ExampleBold(text);
    ExampleLink(text);
  }

  /** Two entries listed later-first are swapped by the ascending sort and
      kept by the descending one. */
  lemma SortTwo(x: Fmt, y: Fmt)
    requires y.start < x.start
    ensures SortByStart([x, y], false) == [y, x] && SortByStart([x, y], true) == [x, y]
  {
    assert [x, y][..1] == [x];
    assert SortByStart([x], false) == [x];
    assert SortByStart([x], true) == [x];
  }

  /** The second range of a two-entry list, as written and corrected. */
  lemma RangesTwo(x: Fmt, y: Fmt, offset: int)
    ensures RangesAsWritten([x, y], offset)[1] == RangeOf(y, offset + SyntaxLenAsWritten(x))
    ensures Ranges([x, y], offset)[1] == RangeOf(y, offset + SyntaxLen(x))
  {
    assert [x, y][1..] == [y];
  }

  lemma ExampleStrip(text: string)
    requires text == "[a](u) **b**"
    ensures StripSyntax(text, [Fmt(Bold, 7, 12, "b", ""), Fmt(Link, 0, 6, "a", "u")]) == "a b"
  {
    var link, bold := Fmt(Link, 0, 6, "a", "u"), Fmt(Bold, 7, 12, "b", "");
    var t1 := ReplaceSpan(text, bold);
    assert t1 == "[a](u) b";
    assert ReplaceSpan(t1, link) == "a b";
  }

  /** A link followed by bold text: the plain text is "a b"; the bold range
      as written is [1, 2), the space, while the corrected one is [2, 3),
      the bold text. */
  lemma LinkOffsetAsWritten(text: string)
    requires text == "[a](u) **b**"
    ensures SortByStart(Parse(text), false) == [Fmt(Link, 0, 6, "a", "u"), Fmt(Bold, 7, 12, "b", "")]
    ensures StripSyntax(text, SortByStart(Parse(text), true)) == "a b"
    ensures RangesAsWritten([Fmt(Link, 0, 6, "a", "u"), Fmt(Bold, 7, 12, "b", "")], 0)[1] == Range(Bold, 1, 2, "")
    ensures Ranges([Fmt(Link, 0, 6, "a", "u"), Fmt(Bold, 7, 12, "b", "")], 0)[1] == Range(Bold, 2, 3, "")
  {
    var link, bold := Fmt(Link, 0, 6, "a", "u"), Fmt(Bold, 7, 12, "b", "");
    ExampleParse(text);
    SortTwo(bold, link);
    ExampleStrip(text);
    RangesTwo(link, bold, 0);
  }

}
