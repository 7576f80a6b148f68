/**
 * The post parser shared by the two Nitter sources: the markdown rendering
 * of a search page is read line by line, kept lines are grouped into posts
 * at blank lines, and the posts are whitespace-normalised and de-duplicated.
 * The two sources differ only in which lines they drop, so the line filter
 * is a parameter here and both filters are defined below.
 */
module MarkdownPosts {
  import opened Wrappers
  import opened Text
  import Ordered

  // ---- str.splitlines ----

  /** The line boundaries of Python's `str.splitlines`. */
  predicate IsLineBreak(c: char) {
    || c == '\n' || c == '\r' || c == '\U{b}' || c == '\U{c}'
    || c == '\U{1c}' || c == '\U{1d}' || c == '\U{1e}' || c == '\U{85}'
    || c == '\U{2028}' || c == '\U{2029}'
  }

  /**
   * `s.splitlines()`: the pieces between line boundaries, where "\r\n" is one
   * boundary and a boundary at the very end does not start another line.
   */
  function SplitLines(s: string): (lines: seq<string>)
    ensures forall l :: l in lines ==> forall k :: 0 <= k < |l| ==> !IsLineBreak(l[k])
    decreases |s|
  {
    if s == [] then []
    else match IndexWhere(s, IsLineBreak)
      case None => [s]
      case Some(i) =>
        var next := if s[i] == '\r' && i + 1 < |s| && s[i + 1] == '\n' then i + 2 else i + 1;
        var rest := SplitLines(s[next..]);
        assert forall l :: l in [s[..i]] + rest ==> l == s[..i] || l in rest;
        [s[..i]] + rest
  }

  /** Lines joined by "\n" split back into the same lines, unless the last one is empty. */
  lemma {:induction false} SplitLinesJoin(lines: seq<string>)
    requires forall l :: l in lines ==> forall k :: 0 <= k < |l| ==> !IsLineBreak(l[k])
    requires lines == [] || lines[|lines| - 1] != ""
    ensures SplitLines(Join("\n", lines)) == lines
    decreases |lines|
  {
    if |lines| == 1 {
      assert lines[0] in lines;
      assert Join("\n", lines) == lines[0];
    } else if |lines| > 1 {
      var l, rest := lines[0], lines[1..];
      assert l in lines;
      assert forall x :: x in rest ==> x in lines;
      assert Join("\n", lines) == l + "\n" + Join("\n", rest);
      SplitLinesLf(l, Join("\n", rest));
      SplitLinesJoin(rest);
      assert lines == [l] + rest;
    }
  }

  /** A "\n" ends the first line. */
  lemma SplitLinesLf(a: string, b: string)
    requires forall k :: 0 <= k < |a| ==> !IsLineBreak(a[k])
    ensures SplitLines(a + "\n" + b) == [a] + SplitLines(b)
  {
    var s := a + "\n" + b;
    assert s[|a|] == '\n';
    IndexWhereFirst(s, IsLineBreak, |a|);
    assert s[..|a|] == a && s[|a| + 1..] == b;
  }

  /** A Windows line ending is a single boundary. */
  lemma SplitLinesCrLf(a: string, b: string)
    requires forall k :: 0 <= k < |a| ==> !IsLineBreak(a[k])
    ensures SplitLines(a + "\r\n" + b) == [a] + SplitLines(b)
  {
    var s := a + "\r\n" + b;
    assert s[|a|] == '\r' && s[|a| + 1] == '\n';
    IndexWhereFirst(s, IsLineBreak, |a|);
    assert s[..|a|] == a && s[|a| + 2..] == b;
  }

  // ---- grouping lines into posts ----

  /** The lines read so far: the finished posts and the lines of the open one. */
  datatype Scan = Scan(groups: seq<seq<string>>, current: seq<string>)

  /** One line of the loop: a blank line closes the open post, a dropped line is skipped. */
  function Step(sc: Scan, raw: string, drop: string -> bool): Scan {
    var line := Strip(raw);
    if line == "" then
      if sc.current != [] then Scan(sc.groups + [sc.current], []) else sc
    else if drop(line) then sc
    else Scan(sc.groups, sc.current + [line])
  }

  /** The loop over `lines` from the state `sc`. */
  function Run(sc: Scan, lines: seq<string>, drop: string -> bool): Scan {
    if lines == [] then sc
    else Step(Run(sc, lines[..|lines| - 1], drop), lines[|lines| - 1], drop)
  }

  function ScanLines(lines: seq<string>, drop: string -> bool): Scan {
    Run(Scan([], []), lines, drop)
  }

  /** The finished posts once the open one, if any, is flushed. */
  function Closed(sc: Scan): seq<seq<string>> {
    if sc.current != [] then sc.groups + [sc.current] else sc.groups
  }

  /** The groups of lines, with the trailing open post flushed. */
  function Groups(lines: seq<string>, drop: string -> bool): seq<seq<string>> {
    Closed(ScanLines(lines, drop))
  }

  function JoinAll(groups: seq<seq<string>>): (r: seq<string>)
    ensures |r| == |groups|
    ensures forall k :: 0 <= k < |groups| ==> r[k] == Join(" ", groups[k])
  {
    seq(|groups|, k requires 0 <= k < |groups| => Join(" ", groups[k]))
  }

  /** The posts before normalisation: each group joined by single spaces. */
  function RawPosts(markdown: string, drop: string -> bool): seq<string> {
    JoinAll(Groups(SplitLines(markdown), drop))
  }

  /** A line that ends up in a post: non-empty, already stripped, not dropped. */
  predicate Kept(line: string, drop: string -> bool) {
    line != "" && Strip(line) == line && !drop(line)
  }

  /** The stripped lines that are kept, in order. */
  function KeptLines(lines: seq<string>, drop: string -> bool): (r: seq<string>)
    ensures forall l :: l in r ==> Kept(l, drop)
  {
    if lines == [] then []
    else
      var line := Strip(lines[|lines| - 1]);
      StripIdempotent(lines[|lines| - 1]);
      KeptLines(lines[..|lines| - 1], drop) + (if line != "" && !drop(line) then [line] else [])
  }

  function Flatten(groups: seq<seq<string>>): seq<string> {
    if groups == [] then []
    else Flatten(groups[..|groups| - 1]) + groups[|groups| - 1]
  }

  lemma FlattenSnoc(groups: seq<seq<string>>, g: seq<string>)
    ensures Flatten(groups + [g]) == Flatten(groups) + g
  {
    assert (groups + [g])[..|groups|] == groups;
  }

  /** The loop invariant of the grouping: every kept line so far is in a group or open. */
  lemma {:induction false} ScanLinesKeeps(lines: seq<string>, drop: string -> bool)
    ensures var sc := ScanLines(lines, drop);
      Flatten(sc.groups) + sc.current == KeptLines(lines, drop)
      && forall g :: g in sc.groups ==> g != []
  {
    if lines != [] {
      var prefix := lines[..|lines| - 1];
      var raw := lines[|lines| - 1];
      var sc := ScanLines(prefix, drop);
      ScanLinesKeeps(prefix, drop);
      var line := Strip(raw);
      if line == "" {
        if sc.current != [] {
          FlattenSnoc(sc.groups, sc.current);
        }
      } else if !drop(line) {
        assert Flatten(sc.groups) + (sc.current + [line]) == (Flatten(sc.groups) + sc.current) + [line];
      }
    }
  }

  /**
   * The posts partition the kept lines: no group is empty, and the groups
   * read one after the other are exactly the stripped, kept lines in input order.
   */
  lemma GroupsSpec(lines: seq<string>, drop: string -> bool)
    ensures forall g :: g in Groups(lines, drop) ==> g != [] && forall l :: l in g ==> Kept(l, drop)
    ensures Flatten(Groups(lines, drop)) == KeptLines(lines, drop)
  {
    var sc := ScanLines(lines, drop);
    ScanLinesKeeps(lines, drop);
    if sc.current != [] {
      FlattenSnoc(sc.groups, sc.current);
    } else {
      assert Flatten(sc.groups) + [] == Flatten(sc.groups);
    }
    var gs := Groups(lines, drop);
    forall g, l | g in gs && l in g ensures Kept(l, drop) {
      FlattenMember(gs, g, l);
    }
  }

  lemma {:induction false} FlattenMember(groups: seq<seq<string>>, g: seq<string>, l: string)
    requires g in groups && l in g
    ensures l in Flatten(groups)
  {
    var last := groups[|groups| - 1];
    if g != last {
      assert groups == groups[..|groups| - 1] + [last];
      FlattenMember(groups[..|groups| - 1], g, l);
    }
  }

  /** The loop from a state with finished posts `done` in front carries them along. */
  lemma {:induction false} RunShift(done: seq<seq<string>>, sc: Scan, lines: seq<string>, drop: string -> bool)
    ensures var r := Run(sc, lines, drop);
      Run(Scan(done + sc.groups, sc.current), lines, drop) == Scan(done + r.groups, r.current)
  {
    if lines != [] {
      RunShift(done, sc, lines[..|lines| - 1], drop);
      var r := Run(sc, lines[..|lines| - 1], drop);
      assert (done + r.groups) + [r.current] == done + (r.groups + [r.current]);
    }
  }

  lemma {:induction false} RunAppend(sc: Scan, a: seq<string>, b: seq<string>, drop: string -> bool)
    ensures Run(sc, a + b, drop) == Run(Run(sc, a, drop), b, drop)
    decreases |b|
  {
    if b == [] {
      assert a + b == a;
    } else {
      assert (a + b)[..|a + b| - 1] == a + b[..|b| - 1];
      RunAppend(sc, a, b[..|b| - 1], drop);
    }
  }

  lemma ClosedShift(done: seq<seq<string>>, sc: Scan)
    ensures Closed(Scan(done + sc.groups, sc.current)) == done + Closed(sc)
  {
    assert done + sc.groups + [sc.current] == done + (sc.groups + [sc.current]);
  }

  lemma BlankCloses(sc: Scan, blank: string, drop: string -> bool)
    requires Strip(blank) == ""
    ensures Step(sc, blank, drop) == Scan(Closed(sc), [])
  {
  }

  /** A blank line ends a post: the posts around it are parsed independently. */
  lemma BlankLineSeparates(a: seq<string>, blank: string, b: seq<string>, drop: string -> bool)
    requires Strip(blank) == ""
    ensures Groups(a + [blank] + b, drop) == Groups(a, drop) + Groups(b, drop)
  {
    var s0 := Scan([], []);
    var ga := Groups(a, drop);
    assert (a + [blank])[..|a|] == a;
    assert Run(s0, a + [blank], drop) == Step(ScanLines(a, drop), blank, drop);
    BlankCloses(ScanLines(a, drop), blank, drop);
    RunAppend(s0, a + [blank], b, drop);
    assert ScanLines(a + [blank] + b, drop) == Run(Scan(ga, []), b, drop);
    RunShift(ga, s0, b, drop);
    assert ga + [] == ga;
    var r := ScanLines(b, drop);
    assert ScanLines(a + [blank] + b, drop) == Scan(ga + r.groups, r.current);
    ClosedShift(ga, r);
  }

  // ---- normalising and de-duplicating ----

  predicate NonEmpty(s: string) { s != "" }

  function Normalized(posts: seq<string>): seq<string> {
    seq(|posts|, k requires 0 <= k < |posts| => NormalizeWs(posts[k]))
  }

  /** The normalised posts that are not blank. */
  function NonBlank(posts: seq<string>): seq<string> {
    Ordered.Filter(Normalized(posts), NonEmpty)
  }

  /** The cleaning loop: normalised, non-empty, each text once, first occurrence first. */
  function Clean(posts: seq<string>): seq<string> {
    Ordered.Distinct(NonBlank(posts))
  }

  /** `_parse_markdown` / `parse_nitter_markdown` with the line filter `drop`. */
  function Posts(markdown: string, drop: string -> bool): seq<string> {
    Clean(RawPosts(markdown, drop))
  }

  /** One more post: the cleaning loop keeps its normal form if that is new and non-empty. */
  lemma CleanSnoc(posts: seq<string>, p: string)
    ensures var n := NormalizeWs(p);
      Clean(posts + [p]) == if n == "" || n in Clean(posts) then Clean(posts) else Clean(posts) + [n]
  {
    var n := NormalizeWs(p);
    NonBlankSnoc(posts, p);
    if n != "" {
      Ordered.DistinctSnoc(NonBlank(posts), n);
      Ordered.DistinctSpec(NonBlank(posts), n);
    } else {
      assert NonBlank(posts + [p]) == NonBlank(posts);
    }
  }

  lemma NonBlankSnoc(posts: seq<string>, p: string)
    ensures var n := NormalizeWs(p);
      NonBlank(posts + [p]) == NonBlank(posts) + (if n == "" then [] else [n])
  {
    var n := NormalizeWs(p);
    assert Normalized(posts + [p]) == Normalized(posts) + [n];
    Ordered.FilterSnoc(Normalized(posts), n, NonEmpty);
  }

  /**
   * The cleaned posts are non-empty and whitespace-normal, no text occurs
   * twice, they keep the input order, and a text is among them exactly when
   * it is the non-empty normal form of some post.
   */
  lemma CleanSpec(posts: seq<string>)
    ensures forall x :: x in Clean(posts) ==> x != "" && IsNormalWs(x)
    ensures forall i, j :: 0 <= i < j < |Clean(posts)| ==> Clean(posts)[i] != Clean(posts)[j]
    ensures Ordered.IsSubseq(Clean(posts), NonBlank(posts))
    ensures forall x :: x in Clean(posts) <==> x != "" && x in Normalized(posts)
  {
    var nb := NonBlank(posts);
    var r := Clean(posts);
    Ordered.FirstPerKeyDistinct(nb, Ordered.Id);
    Ordered.FirstPerKeySubseq(nb, Ordered.Id);
    forall x ensures x in r <==> x != "" && x in Normalized(posts) {
      Ordered.DistinctSpec(nb, x);
      if x != "" && x in Normalized(posts) {
        Ordered.FilterComplete(Normalized(posts), NonEmpty, x);
      }
    }
    forall x | x in r ensures IsNormalWs(x) {
      var k :| 0 <= k < |posts| && Normalized(posts)[k] == x;
      NormalizeWsIdempotent(posts[k]);
    }
    forall i, j | 0 <= i < j < |r| ensures r[i] != r[j] {
      assert Ordered.Id(r[i]) != Ordered.Id(r[j]);
    }
  }

  // ---- the parser as the source writes it ----

  lemma ScanSnoc(lines: seq<string>, i: nat, drop: string -> bool)
    requires i < |lines|
    ensures ScanLines(lines[..i + 1], drop) == Step(ScanLines(lines[..i], drop), lines[i], drop)
  {
    assert lines[..i + 1][..i] == lines[..i];
  }

  lemma JoinAllSnoc(groups: seq<seq<string>>, g: seq<string>)
    ensures JoinAll(groups + [g]) == JoinAll(groups) + [Join(" ", g)]
  {
  }

  /** The first loop: kept lines are collected and joined into a post at each blank line. */
  method GroupLines(lines: seq<string>, drop: string -> bool) returns (posts: seq<string>)
    ensures posts == JoinAll(Groups(lines, drop))
  {
    posts := [];
    var current: seq<string> := [];
    var i := 0;
    while i < |lines|
      invariant 0 <= i <= |lines|
      invariant posts == JoinAll(ScanLines(lines[..i], drop).groups)
      invariant current == ScanLines(lines[..i], drop).current
    {
      ScanSnoc(lines, i, drop);
      var line := Strip(lines[i]);
      if line == "" {
        if current != [] {
          JoinAllSnoc(ScanLines(lines[..i], drop).groups, current);
          posts := posts + [Join(" ", current)];
          current := [];
        }
      } else if !drop(line) {
        current := current + [line];
      }
      i := i + 1;
    }
    assert lines[..i] == lines;
    if current != [] {
      JoinAllSnoc(ScanLines(lines, drop).groups, current);
      posts := posts + [Join(" ", current)];
    }
  }

  /** The cleaning loop as the source writes it: a post's normal form is kept when new and non-empty. */
  function Cleaned(posts: seq<string>): seq<string> {
    if posts == [] then []
    else
      var c := Cleaned(posts[..|posts| - 1]);
      var n := NormalizeWs(posts[|posts| - 1]);
      if n == "" || n in c then c else c + [n]
  }

  /** The loop keeps exactly the first occurrence of each non-empty normal form. */
  lemma {:induction false} CleanedIsClean(posts: seq<string>)
    ensures Cleaned(posts) == Clean(posts)
  {
    if posts != [] {
      var prefix, last := posts[..|posts| - 1], posts[|posts| - 1];
      assert prefix + [last] == posts;
      CleanedIsClean(prefix);
      CleanedStep(posts, |posts| - 1);
      assert posts[..|posts|] == posts;
      CleanSnoc(prefix, last);
    }
  }

  /** The second loop: each post is normalised and kept once, with a `seen` set. */
  method CleanPosts(posts: seq<string>) returns (cleaned: seq<string>)
    ensures cleaned == Cleaned(posts)
  {
    cleaned := [];
    var seen: set<string> := {};
    var j := 0;
    while j < |posts|
      invariant 0 <= j <= |posts|
      invariant cleaned == Cleaned(posts[..j])
      invariant forall x :: x in seen <==> x in cleaned
    {
      CleanedStep(posts, j);
      var normalized := NormalizeWs(posts[j]);
      if normalized != "" && normalized !in seen {
        seen := seen + {normalized};
        cleaned := cleaned + [normalized];
      }
      j := j + 1;
    }
    assert posts[..j] == posts;
  }

  lemma CleanedStep(posts: seq<string>, j: nat)
    requires j < |posts|
    ensures var c := Cleaned(posts[..j]); var n := NormalizeWs(posts[j]);
      Cleaned(posts[..j + 1]) == if n == "" || n in c then c else c + [n]
  {
    assert posts[..j + 1][..j] == posts[..j];
  }

  /** The parser: split into lines, group them into posts, clean the posts. */
  method ParseMarkdown(markdown: string, drop: string -> bool) returns (cleaned: seq<string>)
    ensures cleaned == Posts(markdown, drop)
  {
    var lines := SplitLines(markdown);
    var posts := GroupLines(lines, drop);
    cleaned := CleanPosts(posts);
    CleanedIsClean(posts);
  }

  // ---- the two line filters ----

  /** `s.isdigit()` after removing commas and periods (ASCII digits). */
  predicate IsCountLine(line: string) {
    var simplified := Replace(Replace(line, ",", ""), ".", "");
    simplified != "" && AllDigits(simplified)
  }

  /** Made only of the rule characters `-=_*`. */
  predicate IsRuleLine(line: string) {
    forall c :: c in line ==> c in "-=_*"
  }

  predicate StartsWithAny(line: string, prefixes: seq<string>) {
    exists k | 0 <= k < |prefixes| :: StartsWith(line, prefixes[k])
  }

  const HeaderPrefixes: seq<string> := ["Title:", "URL Source:", "Markdown Content:"]

  /** The lines `_parse_markdown` of the X source skips. */
  predicate XDropped(line: string) {
    || StartsWithAny(line, HeaderPrefixes)
    || StartsWithAny(line, ["Warning:", "[![", "[]"])
    || Contains(line, "http://nitter.net") || Contains(line, "https://nitter.net")
    || IsCountLine(line)
    || IsRuleLine(line)
    || Lower(line) == "gif" || Lower(line) == "video"
  }

  /** The lines `parse_nitter_markdown` of the older fetcher skips. */
  predicate NitterDropped(line: string) {
    || StartsWithAny(line, HeaderPrefixes)
    || StartsWith(line, "Warning:")
    || (StartsWith(line, "[![") && Contains(line, "]("))
    || StartsWith(line, "[]")
    || Contains(line, "| nitter")
    || StartsWith(line, "http://nitter.net") || StartsWith(line, "https://nitter.net")
    || StartsWith(line, "* ")
    || IsCountLine(line)
    || IsRuleLine(line)
    || line == "GIF" || line == "Video"
  }

  /** The X source's parser. */
  function XPosts(markdown: string): seq<string> { Posts(markdown, XDropped) }

  /** The older fetcher's parser. */
  function NitterPosts(markdown: string): seq<string> { Posts(markdown, NitterDropped) }

  /** The page header lines are dropped by both filters. */
  lemma HeaderLinesDropped(line: string)
    requires StartsWithAny(line, HeaderPrefixes)
    ensures XDropped(line) && NitterDropped(line)
  {
  }

  /** The X filter ignores case for "gif"; the older one drops only "GIF". */
  lemma GifFilters()
    ensures XDropped("gif") && !NitterDropped("gif")
  {
    assert Lower("gif") == "gif";
    assert 'g' in "gif" && 'g' !in "-=_*";
    assert Replace("gif", ",", "") == "gif";
    assert Replace("gif", ".", "") == "gif";
    assert 'g' in "gif" && !IsAsciiDigit('g');
    assert !StartsWithAny("gif", HeaderPrefixes);
    assert !OccursAt("gif", "| nitter", 0);
  }

  /** A line opening an image link is dropped by the X filter even without a link target. */
  lemma ImageLinkFilters()
    ensures XDropped("[![x") && !NitterDropped("[![x")
  {
    var s := "[![x";
    assert StartsWith(s, ["Warning:", "[![", "[]"][1]);
    ImageLinkKeptByNitter();
  }

  /** Without a link target, the older filter keeps a line opening an image link. */
  lemma ImageLinkKeptByNitter()
    ensures !NitterDropped("[![x")
  {
    var s := "[![x";
    forall i | 0 <= i <= |s| - 2 ensures !OccursAt(s, "](", i) {
      assert s[i..i + 2][0] == s[i] != ']';
    }
    assert !IsCountLine(s) by {
      assert Replace(s, ",", "") == s;
      assert Replace(s, ".", "") == s;
      assert '[' in s && !IsAsciiDigit('[');
    }
    assert '[' in s && '[' !in "-=_*";
    assert !StartsWithAny(s, HeaderPrefixes);
  }

  /** A bullet line is dropped by the older filter only. */
  lemma BulletFilters()
    ensures NitterDropped("* x") && !XDropped("* x")
  {
    var s := "* x";
    assert StartsWith(s, "* ");
    assert Replace(s, ",", "") == s;
    assert Replace(s, ".", "") == s;
    assert '*' in s && !IsAsciiDigit('*');
    assert ' ' in s && ' ' !in "-=_*";
    assert !StartsWithAny(s, HeaderPrefixes);
    assert !StartsWithAny(s, ["Warning:", "[![", "[]"]);
    assert Lower(s) == s;
  }
}
