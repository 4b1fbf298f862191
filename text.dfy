/** String helpers with Python's semantics, over `seq<char>`.
    Case mapping is ASCII-only; whitespace is the set Python's `str.isspace`
    accepts. */
module Text {
  import opened Wrappers

  /** Characters Python treats as whitespace in `str.split()`, `str.strip()`
      and the regex class `\s`. */
  predicate IsSpace(c: char)
  {
    var n := c as int;
    (9 <= n <= 13) || (28 <= n <= 32) || n == 0x85 || n == 0xA0 || n == 0x1680
    || (0x2000 <= n <= 0x200A) || n == 0x2028 || n == 0x2029 || n == 0x202F
    || n == 0x205F || n == 0x3000
  }

  /** The regex class `\d`, restricted to ASCII digits. */
  predicate IsDigit(c: char) { '0' <= c <= '9' }

  /** The regex class `\w`, restricted to ASCII. */
  predicate IsWordChar(c: char)
  {
    ('a' <= c <= 'z') || ('A' <= c <= 'Z') || IsDigit(c) || c == '_'
  }

  function LowerChar(c: char): char
  {
    if 'A' <= c <= 'Z' then (c as int + 32) as char else c
  }

  function UpperChar(c: char): char
  {
    if 'a' <= c <= 'z' then (c as int - 32) as char else c
  }

  /** `s.lower()`, ASCII letters only. */
  function Lower(s: string): (r: string)
    ensures |r| == |s|
    ensures forall i :: 0 <= i < |s| ==> r[i] == LowerChar(s[i])
  {
    if s == [] then [] else [LowerChar(s[0])] + Lower(s[1..])
  }

  /** `s.upper()`, ASCII letters only. */
  function Upper(s: string): (r: string)
    ensures |r| == |s|
    ensures forall i :: 0 <= i < |s| ==> r[i] == UpperChar(s[i])
  {
    if s == [] then [] else [UpperChar(s[0])] + Upper(s[1..])
  }

  lemma LowerConcat(a: string, b: string)
    ensures Lower(a + b) == Lower(a) + Lower(b)
  {
  }

  predicate StartsWith(s: string, p: string)
  {
    |p| <= |s| && s[..|p|] == p
  }

  predicate EndsWith(s: string, p: string)
  {
    |p| <= |s| && s[|s| - |p|..] == p
  }

  /** `sub in s`. */
  predicate Contains(s: string, sub: string)
    decreases |s|
  {
    StartsWith(s, sub) || (s != [] && Contains(s[1..], sub))
  }

  /** Leading characters of `s` that satisfy `drop`, counted. */
  function LeadCount(s: string, drop: char -> bool): (n: nat)
    ensures n <= |s|
    ensures forall i :: 0 <= i < n ==> drop(s[i])
    ensures n < |s| ==> !drop(s[n])
  {
    if s == [] || !drop(s[0]) then 0 else 1 + LeadCount(s[1..], drop)
  }

  /** A prefix whose characters all satisfy `drop` is counted whole. */
  lemma {:induction false} LeadCountConcat(a: string, b: string, drop: char -> bool)
    requires forall i :: 0 <= i < |a| ==> drop(a[i])
    ensures LeadCount(a + b, drop) == |a| + LeadCount(b, drop)
    decreases |a|
  {
    if a != [] {
      assert (a + b)[0] == a[0];
      assert (a + b)[1..] == a[1..] + b;
      LeadCountConcat(a[1..], b, drop);
    } else {
      assert a + b == b;
    }
  }

  /** Trailing characters of `s` that satisfy `drop`, counted. */
  function TrailCount(s: string, drop: char -> bool): (n: nat)
    ensures n <= |s|
    ensures forall i :: |s| - n <= i < |s| ==> drop(s[i])
    ensures n < |s| ==> !drop(s[|s| - n - 1])
  {
    if s == [] || !drop(s[|s| - 1]) then 0 else 1 + TrailCount(s[..|s| - 1], drop)
  }

  /** `s.strip(chars)`: removes every leading and trailing character that
      satisfies `drop`. */
  function StripBy(s: string, drop: char -> bool): (r: string)
    ensures |r| <= |s|
    ensures r != [] ==> !drop(r[0]) && !drop(r[|r| - 1])
  {
    var a := LeadCount(s, drop);
    var t := s[a..];
    var n := TrailCount(t, drop);
    assert n < |t| ==> t[..|t| - n][0] == t[0] && t[..|t| - n][|t| - n - 1] == t[|t| - n - 1];
    t[..|t| - n]
  }

  /** Stripping only removes characters. */
  lemma StripByWithin(s: string, drop: char -> bool)
    ensures forall x :: x in StripBy(s, drop) ==> x in s
  {
    var a := LeadCount(s, drop);
    var t := s[a..];
    assert StripBy(s, drop) == t[..|t| - TrailCount(t, drop)];
  }

  /** `s.strip()`. */
  function Strip(s: string): (r: string)
    ensures r != [] ==> !IsSpace(r[0]) && !IsSpace(r[|r| - 1])
  {
    StripBy(s, IsSpace)
  }

  /** `s.rstrip(c)` for one character. */
  function RStripChar(s: string, c: char): (r: string)
    ensures StartsWith(s, r)
    ensures r == [] || r[|r| - 1] != c
    ensures forall i :: |r| <= i < |s| ==> s[i] == c
  {
    if s == [] || s[|s| - 1] != c then s else RStripChar(s[..|s| - 1], c)
  }

  /** A character that is not whitespace. */
  predicate NotSpace(c: char)
  {
    !IsSpace(c)
  }

  /** A character other than `sep`. */
  function NotSep(sep: char): char -> bool
  {
    c => c != sep
  }

  /** `s.split()`: the maximal runs of non-whitespace characters, in order. */
  function SplitWs(s: string): (parts: seq<string>)
    ensures forall p :: p in parts ==> p != [] && !IsSpace(p[0])
    decreases |s|
  {
    var a := LeadCount(s, IsSpace);
    if a == |s| then []
    else
      var t := s[a..];
      var w := LeadCount(t, NotSpace);
      [t[..w]] + SplitWs(t[w..])
  }

  /** A string without whitespace. */
  predicate NoSpace(w: string)
  {
    forall i :: 0 <= i < |w| ==> !IsSpace(w[i])
  }

  /** A leading whitespace character does not change the words. */
  lemma SplitWsSpace(c: char, s: string)
    requires IsSpace(c)
    ensures SplitWs([c] + s) == SplitWs(s)
  {
    var cs := [c] + s;
    assert cs[1..] == s;
    var a := LeadCount(s, IsSpace);
    assert LeadCount(cs, IsSpace) == 1 + a;
    if a < |s| {
      assert cs[1 + a..] == s[a..];
    }
  }

  /** A word with no whitespace in it, then the rest: the word comes
      first. */
  lemma SplitWsWord(w: string, rest: string)
    requires w != [] && NoSpace(w)
    requires rest == [] || IsSpace(rest[0])
    ensures SplitWs(w + rest) == [w] + SplitWs(rest)
  {
    var s := w + rest;
    assert s[0] == w[0];
    assert LeadCount(s, IsSpace) == 0;
    assert s[0..] == s;
    var notSpace := NotSpace;
    LeadCountConcat(w, rest, notSpace);
    assert LeadCount(rest, notSpace) == 0;
    assert s[..|w|] == w && s[|w|..] == rest;
  }

  /** A single word splits into itself. */
  lemma SplitWsOne(w: string)
    requires w != [] && NoSpace(w)
    ensures SplitWs(w) == [w]
  {
    SplitWsWord(w, []);
    assert w + [] == w;
  }

  /** Two words joined by one space split back into those two words. */
  lemma SplitWsTwo(a: string, b: string)
    requires a != [] && NoSpace(a) && b != [] && NoSpace(b)
    ensures SplitWs(a + [' '] + b) == [a, b]
  {
    SplitWsOne(b);
    SplitWsSpace(' ', b);
    SplitWsWord(a, [' '] + b);
    assert a + [' '] + b == a + ([' '] + b);
  }

  /** `s.split(sep)` for a one-character separator; never empty. */
  function SplitOn(s: string, sep: char): (parts: seq<string>)
    ensures |parts| >= 1
    ensures forall p :: p in parts ==> sep !in p
    decreases |s|
  {
    var n := LeadCount(s, NotSep(sep));
    if n == |s| then [s] else [s[..n]] + SplitOn(s[n + 1..], sep)
  }

  /** A part without the separator, then the separator: that part comes
      first. */
  lemma SplitOnCons(a: string, b: string, sep: char)
    requires sep !in a
    ensures SplitOn(a + [sep] + b, sep) == [a] + SplitOn(b, sep)
  {
    var s := a + [sep] + b;
    var n := LeadCount(s, NotSep(sep));
    assert s[|a|] == sep;
    assert n == |a|;
    assert s[..n] == a && s[n + 1..] == b;
  }

  /** A string without the separator is one part. */
  lemma SplitOnNone(a: string, sep: char)
    requires sep !in a
    ensures SplitOn(a, sep) == [a]
  {
    var n := LeadCount(a, NotSep(sep));
  }

  lemma AppendAssoc<T>(a: seq<T>, b: seq<T>, c: seq<T>)
    ensures a + (b + c) == (a + b) + c
  {
  }

  /** Splitting two strings joined by the separator gives the parts of the
      first followed by the parts of the second. */
  lemma {:induction false} SplitOnAppend(a: string, b: string, sep: char)
    ensures SplitOn(a + [sep] + b, sep) == SplitOn(a, sep) + SplitOn(b, sep)
    decreases |a|
  {
    var n := LeadCount(a, NotSep(sep));
    if n == |a| {
      assert sep !in a;
      SplitOnCons(a, b, sep);
      SplitOnNone(a, sep);
    } else {
      var head, tail := a[..n], a[n + 1..];
      assert a == head + [sep] + tail;
      assert sep !in head;
      SplitOnCons(head, tail, sep);
      SplitOnAppend(tail, b, sep);
      assert a + [sep] + b == head + [sep] + (tail + [sep] + b);
      SplitOnCons(head, tail + [sep] + b, sep);
      AppendAssoc([head], SplitOn(tail, sep), SplitOn(b, sep));
    }
  }

  /** `sep.join(parts)`. */
  function Join(parts: seq<string>, sep: string): (r: string)
  {
    if parts == [] then []
    else if |parts| == 1 then parts[0]
    else parts[0] + sep + Join(parts[1..], sep)
  }

  /** Splitting on a character and joining the parts back with it gives the
      string back. */
  lemma {:induction false} SplitJoin(s: string, sep: char)
    ensures Join(SplitOn(s, sep), [sep]) == s
    decreases |s|
  {
    var n := LeadCount(s, NotSep(sep));
    if n < |s| {
      var rest := SplitOn(s[n + 1..], sep);
      SplitJoin(s[n + 1..], sep);
      assert SplitOn(s, sep) == [s[..n]] + rest;
      assert ([s[..n]] + rest)[1..] == rest;
      assert Join([s[..n]] + rest, [sep]) == s[..n] + [sep] + Join(rest, [sep]);
      assert s == s[..n] + [sep] + s[n + 1..];
    }
  }

  /** Joining parts that do not hold the separator and splitting the result
      again gives the parts back. */
  lemma {:induction false} JoinSplit(parts: seq<string>, sep: char)
    requires parts != [] && forall i :: 0 <= i < |parts| ==> sep !in parts[i]
    ensures SplitOn(Join(parts, [sep]), sep) == parts
    decreases |parts|
  {
    if |parts| == 1 {
      SplitOnNone(parts[0], sep);
    } else {
      JoinSplit(parts[1..], sep);
      SplitOnCons(parts[0], Join(parts[1..], [sep]), sep);
      assert parts == [parts[0]] + parts[1..];
    }
  }

  /** The last position in `[lo, hi)` holding `c`, like `s.rfind(c, lo, hi)`. */
  function RFind(s: string, c: char, lo: nat, hi: nat): (r: Option<nat>)
    requires lo <= hi <= |s|
    ensures r.Some? ==> lo <= r.value < hi && s[r.value] == c
                        && forall j :: r.value < j < hi ==> s[j] != c
    ensures r.None? ==> forall j :: lo <= j < hi ==> s[j] != c
    decreases hi - lo
  {
    if hi == lo then None
    else if s[hi - 1] == c then Some(hi - 1)
    else RFind(s, c, lo, hi - 1)
  }

  function DigitChar(d: nat): char
    requires d < 10
  {
    ('0' as int + d) as char
  }

  /** `str(n)` for a natural number. */
  function NatToString(n: nat): (r: string)
    ensures r != [] && forall i :: 0 <= i < |r| ==> IsDigit(r[i])
  {
    if n < 10 then [DigitChar(n)] else NatToString(n / 10) + [DigitChar(n % 10)]
  }

  /** The value of a non-empty ASCII digit string. */
  function DigitsValue(s: string): nat
    requires forall i :: 0 <= i < |s| ==> IsDigit(s[i])
  {
    if s == [] then 0
    else
      var d := s[|s| - 1];
      assert IsDigit(d);
      10 * DigitsValue(s[..|s| - 1]) + (d as int - '0' as int)
  }

  lemma {:induction false} NatToStringValue(n: nat)
    ensures DigitsValue(NatToString(n)) == n
  {
    if n >= 10 {
      NatToStringValue(n / 10);
      var r := NatToString(n);
      assert r[..|r| - 1] == NatToString(n / 10);
    }
  }

  /** Python's `<` on strings: lexicographic by code point. */
  predicate LexLess(a: string, b: string)
    decreases |a|
  {
    b != [] && (a == [] || a[0] < b[0] || (a[0] == b[0] && LexLess(a[1..], b[1..])))
  }

  lemma {:induction false} LexIrreflexive(a: string)
    ensures !LexLess(a, a)
    decreases |a|
  {
    if a != [] { LexIrreflexive(a[1..]); }
  }

  lemma {:induction false} LexTotal(a: string, b: string)
    requires a != b
    ensures LexLess(a, b) || LexLess(b, a)
    decreases |a|
  {
    if a != [] && b != [] && a[0] == b[0] {
      assert a == [a[0]] + a[1..] && b == [b[0]] + b[1..];
      LexTotal(a[1..], b[1..]);
    }
  }

  lemma {:induction false} LexTransitive(a: string, b: string, c: string)
    requires LexLess(a, b) && LexLess(b, c)
    ensures LexLess(a, c)
    decreases |a|
  {
    if a != [] && a[0] == b[0] && b[0] == c[0] {
      LexTransitive(a[1..], b[1..], c[1..]);
    }
  }
}
