/**
 * The string operations of Python's `str` that the modelled code relies on,
 * written out over `seq<char>`. Case mapping is ASCII only (Hangul has no
 * case); whitespace is the set Python's `str.isspace` accepts.
 */
module Text {
  import opened Wrappers

  /** Python's `str.isspace()` for one character. */
  predicate IsSpace(c: char) {
    || c == ' ' || ('\t' <= c <= '\r') || ('\U{1c}' <= c <= '\U{1f}')
    || c == '\U{85}' || c == '\U{a0}' || c == '\U{1680}'
    || ('\U{2000}' <= c <= '\U{200a}') || c == '\U{2028}' || c == '\U{2029}'
    || c == '\U{202f}' || c == '\U{205f}' || c == '\U{3000}'
  }

  predicate IsAsciiDigit(c: char) { '0' <= c <= '9' }
  predicate IsAsciiUpper(c: char) { 'A' <= c <= 'Z' }
  predicate IsAsciiLower(c: char) { 'a' <= c <= 'z' }

  function LowerChar(c: char): (r: char)
    ensures !IsAsciiUpper(r)
    ensures IsAsciiUpper(c) || r == c
  {
    if IsAsciiUpper(c) then (c as int + 32) as char else c
  }

  function UpperChar(c: char): (r: char)
    ensures !IsAsciiLower(r)
    ensures IsAsciiLower(c) || r == c
  {
    if IsAsciiLower(c) then (c as int - 32) as char else c
  }

  /** `s.lower()`, restricted to ASCII letters. */
  function Lower(s: string): (r: string)
    ensures |r| == |s|
    ensures forall i :: 0 <= i < |s| ==> r[i] == LowerChar(s[i])
  {
    seq(|s|, i requires 0 <= i < |s| => LowerChar(s[i]))
  }

  /** `s.upper()`, restricted to ASCII letters. */
  function Upper(s: string): (r: string)
    ensures |r| == |s|
    ensures forall i :: 0 <= i < |s| ==> r[i] == UpperChar(s[i])
  {
    seq(|s|, i requires 0 <= i < |s| => UpperChar(s[i]))
  }

  lemma LowerAppend(a: string, b: string)
    ensures Lower(a + b) == Lower(a) + Lower(b)
  {
    assert forall i :: 0 <= i < |a + b| ==> Lower(a + b)[i] == (Lower(a) + Lower(b))[i];
  }

  predicate StartsWith(s: string, p: string) {
    |p| <= |s| && s[..|p|] == p
  }

  predicate EndsWith(s: string, p: string) {
    |p| <= |s| && s[|s| - |p|..] == p
  }

  predicate OccursAt(s: string, sub: string, i: int) {
    0 <= i && i + |sub| <= |s| && s[i..i + |sub|] == sub
  }

  /** Python's `sub in s`. */
  predicate Contains(s: string, sub: string) {
    exists i | 0 <= i <= |s| - |sub| :: OccursAt(s, sub, i)
  }

  lemma ContainsAppend(a: string, b: string, sub: string)
    requires Contains(a, sub) || Contains(b, sub)
    ensures Contains(a + b, sub)
  {
    if Contains(a, sub) {
      var i :| 0 <= i <= |a| - |sub| && OccursAt(a, sub, i);
      assert (a + b)[i..i + |sub|] == a[i..i + |sub|];
      assert OccursAt(a + b, sub, i);
    } else {
      var i :| 0 <= i <= |b| - |sub| && OccursAt(b, sub, i);
      assert (a + b)[|a| + i..|a| + i + |sub|] == b[i..i + |sub|];
      assert OccursAt(a + b, sub, |a| + i);
    }
  }

  /** Length of the longest prefix whose characters satisfy `p`. */
  function RunLength(s: string, p: char -> bool): (n: nat)
    ensures n <= |s|
    ensures forall i :: 0 <= i < n ==> p(s[i])
    ensures n == |s| || !p(s[n])
  {
    if |s| > 0 && p(s[0]) then 1 + RunLength(s[1..], p) else 0
  }

  /** Length of the longest suffix whose characters satisfy `p`. */
  function TailRunLength(s: string, p: char -> bool): (n: nat)
    ensures n <= |s|
    ensures forall i :: |s| - n <= i < |s| ==> p(s[i])
    ensures n == |s| || !p(s[|s| - n - 1])
  {
    if |s| > 0 && p(s[|s| - 1]) then 1 + TailRunLength(s[..|s| - 1], p) else 0
  }

  /** Drops the leading characters that satisfy `drop`. */
  function LStripBy(s: string, drop: char -> bool): (r: string)
    ensures |r| <= |s| && r == s[|s| - |r|..]
    ensures r == [] || !drop(r[0])
  {
    s[RunLength(s, drop)..]
  }

  /** Drops the trailing characters that satisfy `drop`. */
  function RStripBy(s: string, drop: char -> bool): (r: string)
    ensures |r| <= |s| && r == s[..|r|]
    ensures r == [] || !drop(r[|r| - 1])
  {
    s[..|s| - TailRunLength(s, drop)]
  }

  function StripBy(s: string, drop: char -> bool): string {
    RStripBy(LStripBy(s, drop), drop)
  }

  /** `s.strip()`, `s.lstrip()`, `s.rstrip()` with no argument. */
  function Strip(s: string): string { StripBy(s, IsSpace) }
  function LStrip(s: string): string { LStripBy(s, IsSpace) }
  function RStrip(s: string): string { RStripBy(s, IsSpace) }

  lemma LStripByFixed(s: string, drop: char -> bool)
    requires s == [] || !drop(s[0])
    ensures LStripBy(s, drop) == s
  {
  }

  lemma RStripByFixed(s: string, drop: char -> bool)
    requires s == [] || !drop(s[|s| - 1])
    ensures RStripBy(s, drop) == s
  {
  }

  /** Stripping twice strips nothing more. */
  lemma StripByIdempotent(s: string, drop: char -> bool)
    ensures StripBy(StripBy(s, drop), drop) == StripBy(s, drop)
  {
    var l := LStripBy(s, drop);
    var r := RStripBy(l, drop);
    if r != [] {
      assert r[0] == l[0];
      LStripByFixed(r, drop);
      RStripByFixed(r, drop);
    }
  }

  /** What survives stripping starts and ends with a kept character. */
  lemma StripByEnds(s: string, drop: char -> bool)
    ensures var r := StripBy(s, drop); r == [] || (!drop(r[0]) && !drop(r[|r| - 1]))
  {
    var l := LStripBy(s, drop);
    var r := RStripBy(l, drop);
    if r != [] {
      assert r[0] == l[0];
    }
  }

  lemma StripIdempotent(s: string)
    ensures Strip(Strip(s)) == Strip(s)
  {
    StripByIdempotent(s, IsSpace);
  }

  /** Python's `s.replace(old, new)`: left to right, non-overlapping. */
  function Replace(s: string, pat: string, rep: string): string
    requires |pat| > 0
    decreases |s|
  {
    if |s| < |pat| then s
    else if s[..|pat|] == pat then rep + Replace(s[|pat|..], pat, rep)
    else [s[0]] + Replace(s[1..], pat, rep)
  }

  /** Removing every occurrence of one character leaves none behind. */
  lemma {:induction false} ReplaceCharRemoves(s: string, c: char)
    ensures c !in Replace(s, [c], "")
    ensures forall x :: x in Replace(s, [c], "") ==> x in s
    decreases |s|
  {
    if |s| >= 1 {
      ReplaceCharRemoves(s[1..], c);
      if s[..1] == [c] {
        assert Replace(s, [c], "") == Replace(s[1..], [c], "");
      }
    }
  }

  /** A pattern cannot be found where its first character does not occur. */
  lemma {:induction false} ReplaceSkip(a: string, b: string, pat: string, rep: string)
    requires |pat| > 0 && pat[0] !in a
    ensures Replace(a + b, pat, rep) == a + Replace(b, pat, rep)
    decreases |a|
  {
    if a == [] {
      assert a + b == b;
    } else {
      var s := a + b;
      assert s[0] == a[0] != pat[0];
      if |s| >= |pat| {
        assert s[..|pat|][0] == s[0];
      }
      assert s[1..] == a[1..] + b;
      assert pat[0] !in a[1..] by {
        forall x | x in a[1..] ensures x in a {
        }
      }
      ReplaceSkip(a[1..], b, pat, rep);
      assert [a[0]] + (a[1..] + Replace(b, pat, rep)) == a + Replace(b, pat, rep);
    }
  }

  /** A string in which the pattern's first character does not occur is left alone. */
  lemma ReplaceAbsent(s: string, pat: string, rep: string)
    requires |pat| > 0 && pat[0] !in s
    ensures Replace(s, pat, rep) == s
  {
    ReplaceSkip(s, "", pat, rep);
    assert s + "" == s;
  }

  /** An occurrence at the front is replaced. */
  lemma ReplaceFront(b: string, pat: string, rep: string)
    requires |pat| > 0
    ensures Replace(pat + b, pat, rep) == rep + Replace(b, pat, rep)
  {
    assert (pat + b)[..|pat|] == pat;
    assert (pat + b)[|pat|..] == b;
  }

  /** Replacing one character distributes over concatenation. */
  lemma {:induction false} ReplaceCharAppend(a: string, b: string, c: char, rep: string)
    ensures Replace(a + b, [c], rep) == Replace(a, [c], rep) + Replace(b, [c], rep)
    decreases |a|
  {
    if a == [] {
      assert a + b == b;
    } else {
      var s := a + b;
      assert s[..1] == a[..1];
      assert s[1..] == a[1..] + b;
      ReplaceCharAppend(a[1..], b, c, rep);
    }
  }

  /** Splitting pieces joined by a separator they do not contain gives the pieces back. */
  lemma {:induction false} SplitOnJoin(parts: seq<string>, c: char)
    requires parts != []
    requires forall q :: q in parts ==> c !in q
    ensures SplitOn(Join([c], parts), c) == parts
  {
    var sep := (x: char) => x == c;
    assert parts[0] in parts;
    assert IndexWhere(parts[0], sep).None?;
    if |parts| > 1 {
      assert Join([c], parts) == parts[0] + [c] + Join([c], parts[1..]);
      SplitWhereConcat(parts[0], c, Join([c], parts[1..]), sep);
      SplitOnJoin(parts[1..], c);
      assert parts == [parts[0]] + parts[1..];
    }
  }

  predicate NotSpace(c: char) { !IsSpace(c) }

  /** Python's `s.split()`: the maximal runs of non-whitespace characters. */
  function SplitWs(s: string): (words: seq<string>)
    ensures forall w :: w in words ==> |w| > 0 && forall c :: c in w ==> !IsSpace(c)
    decreases |s|
  {
    var t := LStrip(s);
    if t == [] then []
    else
      var n := RunLength(t, NotSpace);
      assert forall c :: c in t[..n] ==> !IsSpace(c) by {
        forall c | c in t[..n] ensures !IsSpace(c) {
          var i :| 0 <= i < n && t[..n][i] == c;
        }
      }
      [t[..n]] + SplitWs(t[n..])
  }

  function Join(sep: string, parts: seq<string>): string {
    if parts == [] then ""
    else if |parts| == 1 then parts[0]
    else parts[0] + sep + Join(sep, parts[1..])
  }

  /** `" ".join(s.split())`: whitespace runs become one space, ends trimmed. */
  function NormalizeWs(s: string): string {
    Join(" ", SplitWs(s))
  }

  /** A string is whitespace-normal when it is " ".join of its own split. */
  predicate IsNormalWs(s: string) {
    NormalizeWs(s) == s
  }

  predicate NoSpace(w: string) {
    forall c :: c in w ==> !IsSpace(c)
  }

  /** `split()` sees only what `lstrip()` leaves. */
  lemma SplitWsOfLStrip(s: string, t: string)
    requires LStrip(s) == LStrip(t)
    ensures SplitWs(s) == SplitWs(t)
  {
  }

  lemma LeadingSpace(rest: string)
    ensures LStrip(" " + rest) == LStrip(rest)
  {
    var x := " " + rest;
    assert x[1..] == rest;
    assert RunLength(x, IsSpace) == 1 + RunLength(rest, IsSpace);
  }

  lemma {:induction false} SplitWsWord(w: string, rest: string)
    requires |w| > 0 && NoSpace(w)
    ensures SplitWs(w + " " + rest) == [w] + SplitWs(rest)
  {
    var s := w + " " + rest;
    assert s == w + (" " + rest);
    assert s[0] == w[0] && w[0] in w;
    LStripByFixed(s, IsSpace);
    RunPrefix(w, " " + rest);
    var n := RunLength(s, NotSpace);
    assert n == |w|;
    assert s[..n] == w;
    assert s[n..] == " " + rest;
    LeadingSpace(rest);
    SplitWsOfLStrip(" " + rest, rest);
    assert SplitWs(s) == [s[..n]] + SplitWs(s[n..]);
  }

  lemma {:induction false} RunPrefix(w: string, rest: string)
    requires NoSpace(w)
    requires rest != [] && IsSpace(rest[0])
    ensures RunLength(w + rest, NotSpace) == |w|
    decreases |w|
  {
    if |w| > 0 {
      assert (w + rest)[1..] == w[1..] + rest;
      assert (w + rest)[0] == w[0] && w[0] in w;
      assert NoSpace(w[1..]) by {
        forall c | c in w[1..] ensures !IsSpace(c) {
          assert c in w;
        }
      }
      RunPrefix(w[1..], rest);
    } else {
      assert w + rest == rest;
    }
  }

  lemma {:induction false} SplitWsSingle(w: string)
    requires |w| > 0 && NoSpace(w)
    ensures SplitWs(w) == [w]
  {
    assert w[0] in w;
    LStripByFixed(w, IsSpace);
    var n := RunLength(w, NotSpace);
    assert n == |w|;
    assert w[..n] == w;
    assert w[n..] == [];
    assert SplitWs(w) == [w[..n]] + SplitWs(w[n..]);
  }

  /** Splitting a space-joined list of words gives the words back. */
  lemma {:induction false} SplitJoin(words: seq<string>)
    requires forall w :: w in words ==> |w| > 0 && NoSpace(w)
    ensures SplitWs(Join(" ", words)) == words
  {
    if words == [] {
    } else if |words| == 1 {
      SplitWsSingle(words[0]);
    } else {
      SplitJoin(words[1..]);
      SplitWsWord(words[0], Join(" ", words[1..]));
    }
  }

  /** Normalising whitespace twice changes nothing more. */
  lemma NormalizeWsIdempotent(s: string)
    ensures IsNormalWs(NormalizeWs(s))
  {
    SplitJoin(SplitWs(s));
  }

  lemma {:induction false} JoinEmpty(sep: string, parts: seq<string>)
    requires forall p :: p in parts ==> |p| > 0
    ensures Join(sep, parts) == "" <==> parts == []
  {
    if |parts| > 1 {
      assert parts[0] in parts;
    } else if |parts| == 1 {
      assert parts[0] in parts;
    }
  }

  /** A normalised string is empty exactly when the input is all whitespace. */
  lemma NormalizeWsEmpty(s: string)
    ensures NormalizeWs(s) == "" <==> SplitWs(s) == []
  {
    JoinEmpty(" ", SplitWs(s));
  }

  /** `re.sub(r"\s+", " ", s)`: every run of whitespace becomes one space. */
  function CollapseWs(s: string): string
    decreases |s|
  {
    if s == [] then []
    else if IsSpace(s[0]) then " " + CollapseWs(s[RunLength(s, IsSpace)..])
    else [s[0]] + CollapseWs(s[1..])
  }

  function LeadSpace(s: string): string {
    if s != [] && IsSpace(s[0]) then " " else ""
  }

  function TrailSpace(s: string): string {
    if s != [] && IsSpace(s[|s| - 1]) then " " else ""
  }

  lemma CollapseLead(s: string)
    ensures CollapseWs(s) == LeadSpace(s) + CollapseWs(LStrip(s))
  {
  }

  lemma {:induction false} CollapseWord(t: string, n: nat)
    requires n <= |t| && forall k :: 0 <= k < n ==> !IsSpace(t[k])
    ensures CollapseWs(t) == t[..n] + CollapseWs(t[n..])
  {
    if n > 0 {
      CollapseWord(t[1..], n - 1);
      assert t[1..][..n - 1] == t[1..n];
      assert t[1..][n - 1..] == t[n..];
      assert t[..n] == [t[0]] + t[1..n];
    }
  }

  lemma CollapseAllSpace(s: string)
    requires SplitWs(s) == []
    ensures CollapseWs(s) == LeadSpace(s)
  {
    assert LStrip(s) == [];
  }

  lemma {:induction false} JoinEnds(parts: seq<string>, sep: string)
    requires parts != [] && forall w :: w in parts ==> |w| > 0
    ensures var j := Join(sep, parts); |j| > 0 && j[0] == parts[0][0]
    ensures var j := Join(sep, parts); j[|j| - 1] == parts[|parts| - 1][|parts[|parts| - 1]| - 1]
  {
    assert parts[0] in parts;
    if |parts| > 1 {
      JoinEnds(parts[1..], sep);
      assert parts[1..][|parts[1..]| - 1] == parts[|parts| - 1];
    }
  }

  lemma SplitWsUnfold(s: string)
    requires LStrip(s) != []
    ensures var t := LStrip(s); var n := RunLength(t, NotSpace);
      SplitWs(s) == [t[..n]] + SplitWs(t[n..])
  {
  }

  lemma TrailOfSuffix(s: string, k: nat)
    requires k < |s|
    ensures TrailSpace(s[k..]) == TrailSpace(s)
  {
    assert s[k..][|s[k..]| - 1] == s[|s| - 1];
  }

  lemma JoinCons(w: string, more: seq<string>)
    requires more != []
    ensures Join(" ", [w] + more) == w + " " + Join(" ", more)
  {
    assert ([w] + more)[1..] == more;
  }

  /** The runs collapse to single spaces and stay between the words. */
  lemma {:induction false} CollapseWords(s: string)
    requires SplitWs(s) != []
    ensures CollapseWs(s) == LeadSpace(s) + Join(" ", SplitWs(s)) + TrailSpace(s)
    decreases |s|
  {
    var t := LStrip(s);
    var n := RunLength(t, NotSpace);
    var rest := t[n..];
    SplitWsUnfold(s);
    if SplitWs(rest) != [] {
      CollapseWords(rest);
    }
    CollapseStep(s);
  }

  /** One word of `s` given the claim for what follows it. */
  lemma {:induction false} CollapseStep(s: string)
    requires LStrip(s) != []
    requires var t := LStrip(s); var rest := t[RunLength(t, NotSpace)..];
      SplitWs(rest) != [] ==> CollapseWs(rest) == LeadSpace(rest) + Join(" ", SplitWs(rest)) + TrailSpace(rest)
    ensures CollapseWs(s) == LeadSpace(s) + Join(" ", SplitWs(s)) + TrailSpace(s)
  {
    var t := LStrip(s);
    var n := RunLength(t, NotSpace);
    var word, rest := t[..n], t[n..];
    var more := SplitWs(rest);
    assert CollapseWs(s) == LeadSpace(s) + (word + CollapseWs(rest)) by {
      CollapseLead(s);
      CollapseWord(t, n);
    }
    assert SplitWs(s) == [word] + more by {
      SplitWsUnfold(s);
    }
    if more == [] {
      CollapseRestBlank(s);
      assert Join(" ", [word]) == word;
      Concat3(LeadSpace(s), word, TrailSpace(s));
    } else {
      CollapseRestWords(s);
      JoinCons(word, more);
      Concat5(LeadSpace(s), word, Join(" ", more), TrailSpace(s));
    }
  }

  /** After the last word only blanks remain, and they collapse to the trailing space. */
  lemma CollapseRestBlank(s: string)
    requires LStrip(s) != []
    requires var t := LStrip(s); SplitWs(t[RunLength(t, NotSpace)..]) == []
    ensures var t := LStrip(s); CollapseWs(t[RunLength(t, NotSpace)..]) == TrailSpace(s)
  {
    var t := LStrip(s);
    var rest := t[RunLength(t, NotSpace)..];
    CollapseAllSpace(rest);
    RestEnds(s);
  }

  /** Words after the first: the gap collapses to one space before them. */
  lemma CollapseRestWords(s: string)
    requires LStrip(s) != []
    requires var t := LStrip(s); var rest := t[RunLength(t, NotSpace)..];
      SplitWs(rest) != [] && CollapseWs(rest) == LeadSpace(rest) + Join(" ", SplitWs(rest)) + TrailSpace(rest)
    ensures var t := LStrip(s); var rest := t[RunLength(t, NotSpace)..];
      CollapseWs(rest) == " " + Join(" ", SplitWs(rest)) + TrailSpace(s)
  {
    var t := LStrip(s);
    var rest := t[RunLength(t, NotSpace)..];
    assert rest != [];
    RestEnds(s);
  }

  /**
   * What follows the first word of `s` starts with a blank when non-empty,
   * and ends as `s` does (in a blank exactly when `s` does).
   */
  lemma RestEnds(s: string)
    requires LStrip(s) != []
    ensures var t := LStrip(s); var rest := t[RunLength(t, NotSpace)..];
      (rest != [] ==> LeadSpace(rest) == " ") && (rest != [] ==> TrailSpace(rest) == TrailSpace(s))
      && (rest == [] ==> TrailSpace(s) == "")
  {
    var t := LStrip(s);
    var n := RunLength(t, NotSpace);
    var rest := t[n..];
    assert t == s[|s| - |t|..];
    if rest == [] {
      assert s[|s| - 1] == t[|t| - 1];
      assert !IsSpace(t[n - 1]);
    } else {
      assert rest[|rest| - 1] == s[|s| - 1];
    }
  }

  lemma Concat3(a: string, b: string, c: string)
    ensures a + (b + c) == a + b + c
  {
  }

  lemma Concat5(a: string, b: string, j: string, c: string)
    ensures a + (b + (" " + j + c)) == a + (b + " " + j) + c
  {
  }

  lemma LStripPad(p: string, y: string)
    requires p == "" || p == " "
    requires |y| > 0 && !IsSpace(y[0])
    ensures LStrip(p + y) == y
  {
    if p == "" {
      assert p + y == y;
    } else {
      var x := p + y;
      assert x[1..] == y;
      assert RunLength(x, IsSpace) == 1;
    }
  }

  lemma RStripPad(y: string, q: string)
    requires q == "" || q == " "
    requires |y| > 0 && !IsSpace(y[|y| - 1])
    ensures RStrip(y + q) == y
  {
    if q == "" {
      assert y + q == y;
    } else {
      var x := y + q;
      assert x[..|x| - 1] == y;
      assert TailRunLength(x, IsSpace) == 1;
    }
  }

  lemma StripPadded(p: string, j: string, q: string)
    requires p == "" || p == " "
    requires q == "" || q == " "
    requires |j| > 0 && !IsSpace(j[0]) && !IsSpace(j[|j| - 1])
    ensures Strip(p + j + q) == j
  {
    assert p + j + q == p + (j + q);
    LStripPad(p, j + q);
    RStripPad(j, q);
  }

  /** Collapsing whitespace and then stripping is `" ".join(s.split())`. */
  lemma CollapseStripIsNormalize(s: string)
    ensures Strip(CollapseWs(s)) == NormalizeWs(s)
  {
    var ws := SplitWs(s);
    if ws == [] {
      CollapseAllSpace(s);
      StripSpace();
    } else {
      CollapseWords(s);
      JoinedWordsEnds(ws);
      StripPadded(LeadSpace(s), Join(" ", ws), TrailSpace(s));
    }
  }

  lemma StripSpace()
    ensures Strip(" ") == "" && Strip("") == ""
  {
    assert RunLength(" ", IsSpace) == 1;
  }

  /** Words joined by single spaces neither start nor end with a space. */
  lemma JoinedWordsEnds(ws: seq<string>)
    requires ws != [] && forall w :: w in ws ==> |w| > 0 && NoSpace(w)
    ensures var j := Join(" ", ws); |j| > 0 && !IsSpace(j[0]) && !IsSpace(j[|j| - 1])
  {
    JoinEnds(ws, " ");
    var w0, wl := ws[0], ws[|ws| - 1];
    assert w0 in ws && wl in ws;
    assert w0[0] in w0 && wl[|wl| - 1] in wl;
  }

  /** Stripping words joined by single spaces changes nothing. */
  lemma StripJoinedWords(ws: seq<string>)
    requires forall w :: w in ws ==> |w| > 0 && NoSpace(w)
    ensures Strip(Join(" ", ws)) == Join(" ", ws)
  {
    var j := Join(" ", ws);
    if ws == [] {
      assert Strip(j) == j;
    } else {
      JoinedWordsEnds(ws);
      StripPadded("", j, "");
      assert "" + j + "" == j;
    }
  }

  /** Index of the first character satisfying `p`, if any. */
  function IndexWhere(s: string, p: char -> bool): (r: Option<nat>)
    ensures r.Some? ==> r.value < |s| && p(s[r.value])
    ensures r.Some? ==> forall k :: 0 <= k < r.value ==> !p(s[k])
    ensures r.None? ==> forall k :: 0 <= k < |s| ==> !p(s[k])
  {
    if s == [] then None
    else if p(s[0]) then Some(0)
    else match IndexWhere(s[1..], p)
      case None => None
      case Some(i) => Some(i + 1)
  }

  /**
   * The pieces between separator characters, empty pieces included:
   * Python's `s.split(c)`, or `re.split` on a one-character class.
   */
  function SplitWhere(s: string, isSep: char -> bool): (parts: seq<string>)
    ensures |parts| >= 1
    ensures forall q :: q in parts ==> forall k :: 0 <= k < |q| ==> !isSep(q[k])
    decreases |s|
  {
    match IndexWhere(s, isSep)
    case None => [s]
    case Some(i) =>
      var rest := SplitWhere(s[i + 1..], isSep);
      assert forall q :: q in [s[..i]] + rest ==> q == s[..i] || q in rest;
      [s[..i]] + rest
  }

  /** A separator character splits a concatenation into the two splits. */
  lemma {:induction false} SplitWhereConcat(a: string, c: char, b: string, isSep: char -> bool)
    requires isSep(c)
    ensures SplitWhere(a + [c] + b, isSep) == SplitWhere(a, isSep) + SplitWhere(b, isSep)
    decreases |a|
  {
    var s := a + [c] + b;
    match IndexWhere(a, isSep)
    case None =>
      assert IndexWhere(s, isSep) == Some(|a|) by {
        assert s[|a|] == c;
        IndexWhereFirst(s, isSep, |a|);
      }
      assert s[..|a|] == a && s[|a| + 1..] == b;
    case Some(i) =>
      IndexWhereFirst(s, isSep, i);
      assert s[..i] == a[..i];
      assert s[i + 1..] == a[i + 1..] + [c] + b;
      SplitWhereConcat(a[i + 1..], c, b, isSep);
  }

  lemma IndexWhereFirst(s: string, p: char -> bool, i: nat)
    requires i < |s| && p(s[i]) && forall k :: 0 <= k < i ==> !p(s[k])
    ensures IndexWhere(s, p) == Some(i)
  {
    var r := IndexWhere(s, p);
    assert r.Some?;
  }

  /** Python's `s.split(c)` for a one-character separator. */
  function SplitOn(s: string, c: char): (parts: seq<string>)
    ensures |parts| >= 1
    ensures forall q :: q in parts ==> c !in q
  {
    SplitWhere(s, x => x == c)
  }

  lemma {:induction false} JoinSplitWhere(s: string, c: char)
    ensures Join([c], SplitWhere(s, x => x == c)) == s
    decreases |s|
  {
    var sep := (x: char) => x == c;
    match IndexWhere(s, sep)
    case None =>
    case Some(i) =>
      var rest := SplitWhere(s[i + 1..], sep);
      var parts := [s[..i]] + rest;
      assert SplitWhere(s, sep) == parts;
      assert parts[0] == s[..i] && parts[1..] == rest && |parts| > 1;
      assert Join([c], parts) == s[..i] + [c] + Join([c], rest);
      JoinSplitWhere(s[i + 1..], c);
      assert s == s[..i] + [c] + s[i + 1..];
  }

  /** Joining the pieces with the separator gives the string back. */
  lemma JoinSplitOn(s: string, c: char)
    ensures Join([c], SplitOn(s, c)) == s
  {
    JoinSplitWhere(s, c);
  }

  function DigitChar(d: nat): (c: char)
    requires d < 10
    ensures IsAsciiDigit(c)
  {
    ('0' as int + d) as char
  }

  function DigitValue(c: char): nat
    requires IsAsciiDigit(c)
  {
    c as int - '0' as int
  }

  /** Python's `str(n)` for a natural number. */
  function NatToString(n: nat): (s: string)
    ensures |s| >= 1
    ensures forall c :: c in s ==> IsAsciiDigit(c)
    decreases n
  {
    if n < 10 then [DigitChar(n)] else NatToString(n / 10) + [DigitChar(n % 10)]
  }

  /** Python's `str(i)` for an integer. */
  function IntToString(i: int): string {
    if i < 0 then "-" + NatToString(-i) else NatToString(i)
  }

  predicate AllDigits(s: string) {
    forall c :: c in s ==> IsAsciiDigit(c)
  }

  /** The value of a string of decimal digits. */
  function DigitsValue(s: string): nat
    requires AllDigits(s)
  {
    if s == [] then 0
    else
      assert s[|s| - 1] in s;
      DigitsValue(s[..|s| - 1]) * 10 + DigitValue(s[|s| - 1])
  }

  lemma {:induction false} DigitsOfNat(n: nat)
    ensures DigitsValue(NatToString(n)) == n
    decreases n
  {
    var s := NatToString(n);
    if n >= 10 {
      DigitsOfNat(n / 10);
      assert s[..|s| - 1] == NatToString(n / 10);
    }
  }

  /** `str` is injective on naturals. */
  lemma NatToStringInjective(a: nat, b: nat)
    requires NatToString(a) == NatToString(b)
    ensures a == b
  {
    DigitsOfNat(a);
    DigitsOfNat(b);
  }

  /**
   * Python's `int(s)` for a decimal string: surrounding whitespace, an
   * optional sign, then one or more digits; anything else raises, here None.
   */
  function ParseInt(s: string): Option<int>
  {
    ParseSigned(Strip(s))
  }

  /** An optional sign followed by one or more ASCII digits. */
  function ParseSigned(t: string): (r: Option<int>)
    ensures r.Some? ==> t != []
  {
    if t == [] then None
    else
      var body := if t[0] == '-' || t[0] == '+' then t[1..] else t;
      if body == [] || !AllDigits(body) then None
      else Some(if t[0] == '-' then -(DigitsValue(body) as int) else DigitsValue(body))
  }

  /** A decimal rendering has no surrounding whitespace. */
  lemma StripIntToString(i: int)
    ensures Strip(IntToString(i)) == IntToString(i)
  {
    var s := IntToString(i);
    var d := if i < 0 then NatToString(-i) else NatToString(i);
    assert d[0] in d && d[|d| - 1] in d;
    assert s[|s| - 1] == d[|d| - 1];
    assert !IsSpace(s[0]);
    LStripByFixed(s, IsSpace);
    RStripByFixed(s, IsSpace);
  }

  /** `int(str(i)) == i`. */
  lemma ParseIntToString(i: int)
    ensures ParseInt(IntToString(i)) == Some(i)
  {
    StripIntToString(i);
    ParseSignedToString(i);
  }

  lemma ParseSignedToString(i: int)
    ensures ParseSigned(IntToString(i)) == Some(i)
  {
    var s := IntToString(i);
    if i < 0 {
      assert s[1..] == NatToString(-i);
      DigitsOfNat(-i);
    } else {
      var d := NatToString(i);
      assert d[0] in d;
      DigitsOfNat(i);
    }
  }

  /** Python's `s[:k]` for any integer `k`, negative counting from the end. */
  function PyPrefix<T>(s: seq<T>, k: int): (r: seq<T>)
    ensures k >= 0 ==> r == s[..if k <= |s| then k else |s|]
    ensures k < 0 ==> r == s[..if -k <= |s| then |s| + k else 0]
  {
    if k >= 0 then s[..if k <= |s| then k else |s|]
    else s[..if -k <= |s| then |s| + k else 0]
  }

  /** Python's ordering of strings: by code point, a proper prefix first. */
  predicate LexLe(a: string, b: string) {
    if a == [] then true
    else if b == [] then false
    else if a[0] != b[0] then a[0] < b[0]
    else LexLe(a[1..], b[1..])
  }

  lemma {:induction false} LexLeTotal(a: string, b: string)
    ensures LexLe(a, b) || LexLe(b, a)
  {
    if a != [] && b != [] && a[0] == b[0] {
      LexLeTotal(a[1..], b[1..]);
    }
  }

  lemma {:induction false} LexLeTransitive(a: string, b: string, c: string)
    requires LexLe(a, b) && LexLe(b, c)
    ensures LexLe(a, c)
  {
    if a != [] && b != [] && c != [] && a[0] == b[0] && b[0] == c[0] {
      LexLeTransitive(a[1..], b[1..], c[1..]);
    }
  }

  lemma {:induction false} LexLeAntisymmetric(a: string, b: string)
    requires LexLe(a, b) && LexLe(b, a)
    ensures a == b
  {
    if a != [] && b != [] {
      LexLeAntisymmetric(a[1..], b[1..]);
      assert a == [a[0]] + a[1..];
      assert b == [b[0]] + b[1..];
    }
  }
}
