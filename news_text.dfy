/**
 * Text helpers of the news pipeline: cleaning and truncating article text,
 * keyword matching, and pulling the first image out of an HTML snippet.
 * `html.unescape` is a library function and is given as a parameter.
 */
module NewsText {
  import opened Wrappers
  import opened Text
  import News

  /** `re.sub(r"\s+", " ", unescape(value)).strip()`, or "" for empty input. */
  function CleanText(value: string, unescape: string -> string): string {
    if value == "" then "" else Strip(CollapseWs(unescape(value)))
  }

  /**
   * Cleaning is whitespace normalisation of the unescaped text: the words of
   * the text joined by single spaces, nothing before or after them.
   */
  lemma CleanTextIsNormalized(value: string, unescape: string -> string)
    ensures value != "" ==> CleanText(value, unescape) == NormalizeWs(unescape(value))
    ensures IsNormalWs(CleanText(value, unescape))
  {
    if value != "" {
      CollapseStripIsNormalize(unescape(value));
      NormalizeWsIdempotent(unescape(value));
    } else {
      assert NormalizeWs("") == "" by {
        assert LStrip("") == "";
      }
    }
  }

  /** The three characters the source appends after a cut, as they are written. */
  const CutSuffix: string := "\U{e2}\U{20ac}\U{a6}"

  /** Kept whole when at most `limit` long, else its first `limit - 1` characters, right-stripped, and `suffix`. */
  function Cut(t: string, limit: int, suffix: string): string {
    if |t| <= limit then t else RStrip(PyPrefix(t, limit - 1)) + suffix
  }

  /** The cut `summarise_text` applies to cleaned text. */
  function CutText(t: string, limit: int): string {
    Cut(t, limit, CutSuffix)
  }

  /** `summarise_text`: the cleaned text, cut to `limit`. */
  function SummariseText(text: string, limit: int, unescape: string -> string): string {
    CutText(CleanText(text, unescape), limit)
  }

  /** Short text is kept whole; long text is cut to a prefix and marked. */
  lemma CutSpec(t: string, limit: int, suffix: string)
    ensures var r := Cut(t, limit, suffix);
      (|t| <= limit ==> r == t)
      && (|t| > limit ==> EndsWith(r, suffix) && StartsWith(t, r[..|r| - |suffix|]))
      && (|t| > limit && limit >= 1 ==> |r| <= limit - 1 + |suffix|)
  {
    var r := Cut(t, limit, suffix);
    if |t| > limit {
      var p := RStrip(PyPrefix(t, limit - 1));
      assert r == p + suffix;
      assert r[..|r| - |suffix|] == p;
      assert r[|r| - |suffix|..] == suffix;
      assert PyPrefix(t, limit - 1) == t[..|PyPrefix(t, limit - 1)|];
      assert p == t[..|p|];
    }
  }

  /** With the three-character suffix a cut text is at most two characters over the limit. */
  lemma CutTextSpec(t: string, limit: int)
    ensures var r := CutText(t, limit);
      (|t| <= limit ==> r == t)
      && (|t| > limit ==> EndsWith(r, CutSuffix) && StartsWith(t, r[..|r| - |CutSuffix|]))
      && (|t| > limit && limit >= 1 ==> |r| <= limit + 2)
  {
    CutSpec(t, limit, CutSuffix);
  }

  /** Summarising is cutting the cleaned text. */
  lemma SummariseTextSpec(text: string, limit: int, unescape: string -> string)
    ensures var t := CleanText(text, unescape); var r := SummariseText(text, limit, unescape);
      (|t| <= limit ==> r == t)
      && (|t| > limit ==> EndsWith(r, CutSuffix) && StartsWith(t, r[..|r| - |CutSuffix|]))
      && (|t| > limit && limit >= 1 ==> |r| <= limit + 2)
  {
    CutTextSpec(CleanText(text, unescape), limit);
  }

  /** `any(keyword.lower() in text.lower() for keyword in keywords)`. */
  predicate ContainsAny(text: string, keywords: seq<string>) {
    exists i | 0 <= i < |keywords| :: Contains(Lower(text), Lower(keywords[i]))
  }

  predicate IsStockRelated(text: string) { ContainsAny(text, News.StockKeywords) }
  predicate IsAutonomyRelated(text: string) { ContainsAny(text, News.AutonomyKeywords) }

  lemma LowerIdempotent(s: string)
    ensures Lower(Lower(s)) == Lower(s)
  {
  }

  /** The match ignores ASCII case on both sides and needs some keyword. */
  lemma ContainsAnySpec(text: string, keywords: seq<string>)
    ensures keywords == [] ==> !ContainsAny(text, keywords)
    ensures ContainsAny(Lower(text), keywords) == ContainsAny(text, keywords)
    ensures ContainsAny(text, keywords) <==> exists k | k in keywords :: Contains(Lower(text), Lower(k))
  {
    LowerIdempotent(text);
  }

  /** A keyword found in either part is found in the two parts joined by a space. */
  lemma ContainsAnyWithin(a: string, b: string, keywords: seq<string>)
    requires ContainsAny(a, keywords) || ContainsAny(b, keywords)
    ensures ContainsAny(a + " " + b, keywords)
  {
    LowerAppend(a + " ", b);
    LowerAppend(a, " ");
    if ContainsAny(a, keywords) {
      var i :| 0 <= i < |keywords| && Contains(Lower(a), Lower(keywords[i]));
      ContainsAppend(Lower(a), Lower(" "), Lower(keywords[i]));
      ContainsAppend(Lower(a) + Lower(" "), Lower(b), Lower(keywords[i]));
    } else {
      var i :| 0 <= i < |keywords| && Contains(Lower(b), Lower(keywords[i]));
      ContainsAppend(Lower(a) + Lower(" "), Lower(b), Lower(keywords[i]));
    }
  }

  lemma AdasMatchesAnyCase()
    ensures IsAutonomyRelated("new adas update")
  {
    var text := "new adas update";
    assert News.AutonomyKeywords[19] == "ADAS";
    assert Lower("ADAS") == "adas";
    assert Lower(text) == text;
    assert OccursAt(Lower(text), Lower("ADAS"), 4);
  }

  // ---- extract_image_url: the regex <img[^>]+src="([^"]+)" (case-insensitive) ----

  /**
   * The ASCII letter a character matches under `re.IGNORECASE` on `str`:
   * its simple lower-case mapping, which sends `İ` (U+0130) to `i` and the
   * Kelvin sign (U+212A) to `k`, with the regex engine's extra pairs `ı`
   * (U+0131) for `i` and `ſ` (U+017F) for `s`. Other characters stay.
   */
  function ReFold(c: char): (r: char)
    ensures 'a' <= r <= 'z' && r != c ==> 'A' <= c <= 'Z' || c in {'\U{0130}', '\U{0131}', '\U{017F}', '\U{212A}'}
  {
    if 'A' <= c <= 'Z' then (c as int + 32) as char
    else if c == '\U{0130}' || c == '\U{0131}' then 'i'
    else if c == '\U{017F}' then 's'
    else if c == '\U{212A}' then 'k'
    else c
  }

  /** `lit` (lower-case ASCII) occurs at `i` under `re.IGNORECASE`. */
  predicate CiAt(h: string, i: int, lit: string) {
    0 <= i && i + |lit| <= |h| && forall k :: 0 <= k < |lit| ==> ReFold(h[i + k]) == lit[k]
  }

  /** `<İMG` and `<img ſrc` match as Python's case-insensitive regex matches them. */
  lemma UnicodeFoldsMatch()
    ensures CiAt("<\U{0130}MG", 0, "<img") && CiAt("<\U{0131}mg", 0, "<img")
    ensures CiAt("\U{017F}rc=\"", 0, "src=\"") && CiAt("SRC=\"", 0, "src=\"")
    ensures !CiAt("<imq", 0, "<img")
  {
    assert ReFold("<imq"[0 + 3]) == 'q' != "<img"[3];
  }

  /** `src="` at `j` followed by a non-empty run of non-quote characters and a quote. */
  function SrcAt(h: string, j: int): (r: Option<string>)
    ensures r.Some? ==> 0 <= j && j + 5 < |h|
    ensures r.Some? ==> |r.value| > 0 && '"' !in r.value
  {
    if !CiAt(h, j, "src=\"") then None
    else
      match IndexWhere(h[j + 5..], c => c == '"')
      case None => None
      case Some(d) =>
        if d == 0 then None
        else
          var u := h[j + 5..j + 5 + d];
          assert forall c :: c in u ==> c != '"' by {
            forall c | c in u ensures c != '"' {
              var k :| 0 <= k < |u| && u[k] == c;
              assert u[k] == h[j + 5..][k];
            }
          }
          Some(u)
  }

  /** The regex matches with `<img` at `i` and `src="` at `j`. */
  predicate MatchAt(h: string, i: int, j: int) {
    CiAt(h, i, "<img") && i + 5 <= j && SrcAt(h, j).Some?
    && (forall t :: i + 4 <= t < j ==> h[t] != '>')
  }

  /** Greedy `[^>]+`: the last `src="` position in `lo..j` that completes a match. */
  function LastSrc(h: string, lo: int, j: int): (r: Option<int>)
    ensures r.Some? ==> lo <= r.value <= j && SrcAt(h, r.value).Some?
    ensures r.Some? ==> forall t :: r.value < t <= j ==> SrcAt(h, t).None?
    ensures r.None? ==> forall t :: lo <= t <= j ==> SrcAt(h, t).None?
    decreases j - lo
  {
    if j < lo then None
    else if SrcAt(h, j).Some? then Some(j)
    else LastSrc(h, lo, j - 1)
  }

  /** The end of the run of non-`>` characters starting at `p`. */
  function NonGtEnd(h: string, p: nat): (e: nat)
    requires p <= |h|
    ensures p <= e <= |h|
    ensures forall t :: p <= t < e ==> h[t] != '>'
    ensures e == |h| || h[e] == '>'
  {
    p + RunLength(h[p..], c => c != '>')
  }

  /** The match attempt with `<img` at `i`. */
  function MatchFrom(h: string, i: nat): (r: Option<int>)
    ensures r.Some? ==> MatchAt(h, i, r.value)
    ensures r.Some? ==> forall j :: r.value < j ==> !MatchAt(h, i, j)
    ensures r.None? ==> forall j :: !MatchAt(h, i, j)
  {
    if !CiAt(h, i, "<img") then None
    else
      var e := NonGtEnd(h, i + 4);
      var r := LastSrc(h, i + 5, e);
      assert forall j :: MatchAt(h, i, j) ==> j <= e;
      r
  }

  /** No match starts at or after the end of the text. */
  lemma NoMatchPastEnd(h: string, s: int, j: int)
    requires |h| <= s
    ensures !MatchAt(h, s, j)
  {
    assert !CiAt(h, s, "<img");
  }

  /** `re.search`: the leftmost start from `i` on at which the pattern matches. */
  function SearchFrom(h: string, i: nat): (r: Option<(nat, int)>)
    requires i <= |h|
    ensures r.Some? ==> i <= r.value.0 && MatchAt(h, r.value.0, r.value.1)
    ensures r.Some? ==> forall j :: r.value.1 < j ==> !MatchAt(h, r.value.0, j)
    ensures r.Some? ==> forall s, j :: i <= s < r.value.0 ==> !MatchAt(h, s, j)
    ensures r.None? ==> forall s, j :: i <= s ==> !MatchAt(h, s, j)
    decreases |h| - i
  {
    match MatchFrom(h, i)
    case Some(j) => Some((i, j))
    case None =>
      if i == |h| then
        assert forall s, j :: i <= s ==> !MatchAt(h, s, j) by {
          forall s, j | i <= s ensures !MatchAt(h, s, j) {
            NoMatchPastEnd(h, s, j);
          }
        }
        None
      else SearchFrom(h, i + 1)
  }

  /** `extract_image_url`: the `src` of the first `<img ... src="...">`, if any. */
  function ExtractImageUrl(html: string): (r: Option<string>)
  {
    if html == "" then None
    else match SearchFrom(html, 0)
      case None => None
      case Some(m) => SrcAt(html, m.1)
  }

  /**
   * The result is absent exactly when the pattern matches nowhere; otherwise
   * it is the quoted value at the leftmost `<img`, taking the last `src="`
   * of that tag, and it is non-empty and free of quotes.
   */
  lemma ExtractImageUrlSpec(html: string)
    ensures ExtractImageUrl(html).None? <==> forall s, j :: !MatchAt(html, s, j)
    ensures ExtractImageUrl(html).Some? ==>
      exists s, j :: MatchAt(html, s, j) && ExtractImageUrl(html) == SrcAt(html, j)
        && (forall s', j' :: s' < s ==> !MatchAt(html, s', j'))
        && (forall j' :: j < j' ==> !MatchAt(html, s, j'))
    ensures ExtractImageUrl(html).Some? ==>
      |ExtractImageUrl(html).value| > 0 && '"' !in ExtractImageUrl(html).value
  {
    if html == "" {
      assert forall s, j :: !MatchAt(html, s, j);
    } else {
      match SearchFrom(html, 0)
      case None =>
      case Some(m) =>
        assert forall s', j' :: s' < m.0 ==> !MatchAt(html, s', j') by {
          forall s', j' | s' < m.0 ensures !MatchAt(html, s', j') {
            if s' < 0 { assert !CiAt(html, s', "<img"); }
          }
        }
    }
  }

  /** A tag spelt with the dotted capital `İ`, as Python's case-insensitive search accepts it. */
  const DottedImgTag: string := "<\U{0130}MG src=\"a.png\">"

  /** The tag's `<İMG` and `src="` match the pattern's literals. */
  lemma DottedImgLiterals()
    ensures CiAt(DottedImgTag, 0, "<img") && CiAt(DottedImgTag, 5, "src=\"")
  {
    var h := DottedImgTag;
    assert h[0] == '<' && h[1] == '\U{0130}' && h[2] == 'M' && h[3] == 'G';
    assert h[5] == 's' && h[6] == 'r' && h[7] == 'c' && h[8] == '=' && h[9] == '"';
  }

  lemma DottedImgSrc()
    ensures SrcAt(DottedImgTag, 5) == Some("a.png")
  {
    var h := DottedImgTag;
    DottedImgLiterals();
    var tail := h[10..];
    assert tail == "a.png\">";
    var d := IndexWhere(tail, c => c == '"');
    assert (c => c == '"')(tail[5]);
    assert d == Some(5);
    assert h[10..15] == "a.png";
  }

  lemma DottedImgMatch()
    ensures MatchAt(DottedImgTag, 0, 5)
  {
    DottedImgSrc();
    DottedImgLiterals();
    assert DottedImgTag[4] == ' ';
  }

  lemma DottedImgOnlySrc(j: int)
    requires 5 < j
    ensures !MatchAt(DottedImgTag, 0, j)
  {
    var h := DottedImgTag;
    if j <= 16 {
      assert h[j] in "rc=\"a.png\">";
      assert ReFold(h[j + 0]) != "src=\""[0];
      assert !CiAt(h, j, "src=\"");
    } else {
      assert h[16] == '>';
    }
  }

  /** A match at the first position whose `src="` is the last one is the search's result. */
  lemma SearchFromStart(h: string, j: int)
    requires MatchAt(h, 0, j)
    requires forall j' :: j < j' ==> !MatchAt(h, 0, j')
    ensures SearchFrom(h, 0) == Some((0, j))
  {
    var r := SearchFrom(h, 0);
    assert r.Some?;
    assert r.value.0 == 0;
  }

  /** The search stops at the tag's `<İMG`, with its only `src="`. */
  lemma DottedImgSearch()
    ensures SearchFrom(DottedImgTag, 0) == Some((0, 5))
  {
    DottedImgMatch();
    forall j | 5 < j ensures !MatchAt(DottedImgTag, 0, j) {
      DottedImgOnlySrc(j);
    }
    SearchFromStart(DottedImgTag, 5);
  }

  /** `<İMG src="a.png">` yields `a.png`, as Python's case-insensitive search finds it. */
  lemma DottedCapitalImgMatches()
    ensures ExtractImageUrl(DottedImgTag) == Some("a.png")
  {
    DottedImgSearch();
    DottedImgSrc();
    assert DottedImgTag[0] == '<';
  }
}