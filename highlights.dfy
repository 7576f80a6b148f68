/**
 * Enrichment of the selected articles: the highlight builder that turns a
 * summary into a few short sentences, the fallback image URL built from the
 * title, and the merge of the article cache's data into each item.
 * `quote_plus` is a library function and is given as a parameter.
 */
module Highlights {
  import opened Wrappers
  import opened Text
  import opened News

  // ---- the sentence splitter SPLIT_SENTENCES: (?<=[.!?])\s+ | (?:\n|\r)+ | -+ ----

  predicate IsNewline(c: char) { c == '\n' || c == '\r' }
  predicate IsDash(c: char) { c == '-' }

  /** A character that always starts a separator match wherever it stands. */
  predicate IsBreak(c: char) { IsNewline(c) || IsDash(c) }

  /**
   * The end of the separator match starting at `p`, trying the three
   * alternatives in order, or None when none of them matches there.
   */
  function SepEnd(s: string, p: nat): (r: Option<nat>)
    requires p < |s|
    ensures r.Some? ==> p < r.value <= |s|
    ensures IsBreak(s[p]) ==> r.Some?
  {
    if p > 0 && s[p - 1] in ".!?" && IsSpace(s[p]) then Some(p + RunLength(s[p..], IsSpace))
    else if IsNewline(s[p]) then Some(p + RunLength(s[p..], IsNewline))
    else if IsDash(s[p]) then Some(p + RunLength(s[p..], IsDash))
    else None
  }

  /** `re.split` from the piece that began at `start`, scanning from `p`. */
  function SplitFrom(s: string, start: nat, p: nat): (parts: seq<string>)
    requires start <= p <= |s|
    requires forall k :: start <= k < p ==> !IsBreak(s[k])
    ensures |parts| >= 1
    ensures forall q :: q in parts ==> forall k :: 0 <= k < |q| ==> !IsBreak(q[k])
    decreases |s| - p
  {
    if p == |s| then
      assert forall k :: 0 <= k < |s[start..]| ==> s[start..][k] == s[start + k];
      [s[start..]]
    else
      match SepEnd(s, p)
      case Some(e) =>
        assert forall k :: 0 <= k < |s[start..p]| ==> s[start..p][k] == s[start + k];
        [s[start..p]] + SplitFrom(s, e, e)
      case None => SplitFrom(s, start, p + 1)
  }

  function SplitSentences(s: string): (parts: seq<string>)
    ensures |parts| >= 1
    ensures forall q :: q in parts ==> forall k :: 0 <= k < |q| ==> !IsBreak(q[k])
  {
    SplitFrom(s, 0, 0)
  }

  /** The bullet characters the source turns into full stops. */
  function CleanBullets(text: string): string {
    Replace(Replace(Replace(text, "\U{b7}", "."), "\U{2022}", "."), "\U{25b6}", ".")
  }

  predicate IsSpaceOrDash(c: char) { c == ' ' || c == '-' }

  /** `[segment.strip(" -") for segment in SPLIT_SENTENCES.split(cleaned)]`. */
  function Candidates(text: string): (cands: seq<string>)
    ensures forall q :: q in cands ==> forall k :: 0 <= k < |q| ==> !IsBreak(q[k])
  {
    var pieces := SplitSentences(CleanBullets(text));
    seq(|pieces|, k requires 0 <= k < |pieces| => StripBy(pieces[k], IsSpaceOrDash))
  }

  /** `x[:160].rstrip()`. */
  function Cut(x: string): (r: string)
    ensures |r| <= 160 && StartsWith(x, r)
  {
    RStrip(PyPrefix(x, 160))
  }

  const MaxHighlightLength: nat := 160

  /** The text used when too few sentences were found. */
  const Placeholder: string := "\U{c790}\U{c138}\U{d55c} \U{b0b4}\U{c6a9}\U{c740} \U{c6d0}\U{bb38}\U{c744} \U{cc38}\U{ace0}\U{d558}\U{c138}\U{c694}."

  /** `SPLIT_PHRASES.split(segment)`: pieces between commas and semicolons. */
  function Phrases(segment: string): seq<string> {
    SplitWhere(segment, c => c == ',' || c == ';')
  }

  // ---- the three passes of build_highlights as specification functions ----

  /**
   * The first loop from candidate `i` on: skips short and seen segments,
   * appends the cut of each new one and stops once `maxPoints` are there.
   */
  function FirstPass(cands: seq<string>, i: nat, seen: set<string>, hs: seq<string>, maxPoints: int)
    : (seq<string>, set<string>)
    requires i <= |cands|
    decreases |cands| - i
  {
    if i == |cands| then (hs, seen)
    else
      var seg := cands[i];
      if |seg| < 4 || seg in seen then FirstPass(cands, i + 1, seen, hs, maxPoints)
      else if |hs + [Cut(seg)]| >= maxPoints then (hs + [Cut(seg)], seen + {seg})
      else FirstPass(cands, i + 1, seen + {seg}, hs + [Cut(seg)], maxPoints)
  }

  /** The inner loop over the stripped phrases of one segment, from phrase `j` on. */
  function PhrasePass(parts: seq<string>, j: nat, seen: set<string>, extras: seq<string>)
    : (seq<string>, set<string>)
    requires j <= |parts|
    decreases |parts| - j
  {
    if j == |parts| then (extras, seen)
    else
      var part := Strip(parts[j]);
      if |part| < 6 || part in seen then PhrasePass(parts, j + 1, seen, extras)
      else PhrasePass(parts, j + 1, seen + {part}, extras + [Cut(part)])
  }

  /** The outer loop collecting the phrase extras from candidate `i` on. */
  function ExtrasPass(cands: seq<string>, i: nat, seen: set<string>, extras: seq<string>): seq<string>
    requires i <= |cands|
    decreases |cands| - i
  {
    if i == |cands| then extras
    else
      var p := PhrasePass(Phrases(cands[i]), 0, seen, extras);
      ExtrasPass(cands, i + 1, p.1, p.0)
  }

  /** The second loop runs only when the first left the list short, and fills it up from the extras. */
  function WithExtras(cands: seq<string>, first: (seq<string>, set<string>), maxPoints: int): seq<string> {
    if |first.0| < maxPoints
    then first.0 + PyPrefix(ExtrasPass(cands, 0, first.1, []), maxPoints - |first.0|)
    else first.0
  }

  function WithPlaceholder(hs: seq<string>, maxPoints: int): seq<string> {
    if |hs| < maxPoints then hs + [Placeholder] else hs
  }

  /** The passes after splitting: the highlights drawn from the candidate segments. */
  function HighlightsOf(cands: seq<string>, maxPoints: int): seq<string> {
    PyPrefix(WithPlaceholder(WithExtras(cands, FirstPass(cands, 0, {}, [], maxPoints), maxPoints), maxPoints), maxPoints)
  }

  /** `build_highlights(text, max_points)`. */
  function Highlights(text: string, maxPoints: int): seq<string> {
    if text == "" then [] else HighlightsOf(Candidates(text), maxPoints)
  }

  /** `h` is the cut of a candidate segment of at least 4 characters. */
  predicate IsSegmentCut(h: string, cands: seq<string>) {
    exists i :: 0 <= i < |cands| && |cands[i]| >= 4 && h == Cut(cands[i])
  }

  /** `h` is the cut of one of `parts`, stripped, of at least 6 characters. */
  predicate IsPhraseCutOf(h: string, parts: seq<string>) {
    exists j :: 0 <= j < |parts| && |Strip(parts[j])| >= 6 && h == Cut(Strip(parts[j]))
  }

  /** `h` is the cut of a stripped phrase of at least 6 characters of some candidate. */
  predicate IsPhraseCut(h: string, cands: seq<string>) {
    exists i :: 0 <= i < |cands| && IsPhraseCutOf(h, Phrases(cands[i]))
  }

  lemma FirstPassSpec(cands: seq<string>, i: nat, seen: set<string>, hs: seq<string>, maxPoints: int)
    requires i <= |cands|
    ensures var r := FirstPass(cands, i, seen, hs, maxPoints).0;
      (forall h :: h in r ==> h in hs || IsSegmentCut(h, cands))
      && |hs| <= |r| <= (if |hs| < maxPoints then maxPoints else |hs| + 1)
  {
    FirstPassMembers(cands, i, seen, hs, maxPoints);
    FirstPassLength(cands, i, seen, hs, maxPoints);
  }

  lemma {:induction false} FirstPassMembers(cands: seq<string>, i: nat, seen: set<string>, hs: seq<string>, maxPoints: int)
    requires i <= |cands|
    ensures forall h :: h in FirstPass(cands, i, seen, hs, maxPoints).0 ==> h in hs || IsSegmentCut(h, cands)
    decreases |cands| - i
  {
    if i < |cands| {
      var seg := cands[i];
      if |seg| < 4 || seg in seen {
        FirstPassMembers(cands, i + 1, seen, hs, maxPoints);
      } else {
        var hs' := hs + [Cut(seg)];
        assert IsSegmentCut(Cut(seg), cands);
        assert forall h :: h in hs' ==> h in hs || h == Cut(seg);
        if |hs'| < maxPoints {
          FirstPassMembers(cands, i + 1, seen + {seg}, hs', maxPoints);
        }
      }
    }
  }

  lemma {:induction false} FirstPassLength(cands: seq<string>, i: nat, seen: set<string>, hs: seq<string>, maxPoints: int)
    requires i <= |cands|
    ensures var r := FirstPass(cands, i, seen, hs, maxPoints).0;
      |hs| <= |r| <= (if |hs| < maxPoints then maxPoints else |hs| + 1)
    decreases |cands| - i
  {
    if i < |cands| {
      var seg := cands[i];
      if |seg| < 4 || seg in seen {
        FirstPassLength(cands, i + 1, seen, hs, maxPoints);
      } else if |hs| + 1 < maxPoints {
        FirstPassLength(cands, i + 1, seen + {seg}, hs + [Cut(seg)], maxPoints);
      }
    }
  }

  lemma {:induction false} PhrasePassSpec(parts: seq<string>, j: nat, seen: set<string>, extras: seq<string>)
    requires j <= |parts|
    ensures forall h :: h in PhrasePass(parts, j, seen, extras).0 ==> h in extras || IsPhraseCutOf(h, parts)
    decreases |parts| - j
  {
    if j < |parts| {
      var part := Strip(parts[j]);
      if |part| < 6 || part in seen {
        PhrasePassSpec(parts, j + 1, seen, extras);
      } else {
        assert IsPhraseCutOf(Cut(part), parts);
        PhrasePassSpec(parts, j + 1, seen + {part}, extras + [Cut(part)]);
      }
    }
  }

  lemma {:induction false} ExtrasPassSpec(cands: seq<string>, i: nat, seen: set<string>, extras: seq<string>)
    requires i <= |cands|
    ensures forall h :: h in ExtrasPass(cands, i, seen, extras) ==> h in extras || IsPhraseCut(h, cands)
    decreases |cands| - i
  {
    if i < |cands| {
      PhrasePassSpec(Phrases(cands[i]), 0, seen, extras);
      var p := PhrasePass(Phrases(cands[i]), 0, seen, extras);
      assert forall h :: h in p.0 ==> h in extras || IsPhraseCut(h, cands);
      ExtrasPassSpec(cands, i + 1, p.1, p.0);
    }
  }

  /** Every highlight of the first two loops is the cut of a segment or of a phrase. */
  lemma WithExtrasSpec(cands: seq<string>, maxPoints: int)
    ensures forall h :: h in WithExtras(cands, FirstPass(cands, 0, {}, [], maxPoints), maxPoints) ==>
      IsSegmentCut(h, cands) || IsPhraseCut(h, cands)
  {
    var first := FirstPass(cands, 0, {}, [], maxPoints);
    FirstPassSpec(cands, 0, {}, [], maxPoints);
    assert forall h :: h in first.0 ==> IsSegmentCut(h, cands);
    if |first.0| < maxPoints {
      var taken := PyPrefix(ExtrasPass(cands, 0, first.1, []), maxPoints - |first.0|);
      TakenExtrasSpec(cands, first.1, maxPoints - |first.0|);
      assert WithExtras(cands, first, maxPoints) == first.0 + taken;
    }
  }

  /** The extras actually taken are phrase cuts. */
  lemma TakenExtrasSpec(cands: seq<string>, seen: set<string>, n: int)
    ensures forall h :: h in PyPrefix(ExtrasPass(cands, 0, seen, []), n) ==> IsPhraseCut(h, cands)
  {
    var extras := ExtrasPass(cands, 0, seen, []);
    ExtrasPassSpec(cands, 0, seen, []);
    forall h | h in PyPrefix(extras, n) ensures h in extras {
      var k :| 0 <= k < |PyPrefix(extras, n)| && PyPrefix(extras, n)[k] == h;
      assert extras[k] == h;
    }
  }

  /** The placeholder and the final cut keep at most `maxPoints` and add nothing but the placeholder, last. */
  lemma FinishSpec(cands: seq<string>, hs: seq<string>, maxPoints: int)
    requires forall h :: h in hs ==> IsSegmentCut(h, cands) || IsPhraseCut(h, cands)
    ensures maxPoints >= 1 ==> 1 <= |PyPrefix(WithPlaceholder(hs, maxPoints), maxPoints)| <= maxPoints
    ensures var r := PyPrefix(WithPlaceholder(hs, maxPoints), maxPoints);
      forall k :: 0 <= k < |r| ==>
        IsSegmentCut(r[k], cands) || IsPhraseCut(r[k], cands) || (k == |r| - 1 && r[k] == Placeholder)
  {
    var hs3 := WithPlaceholder(hs, maxPoints);
    var r := PyPrefix(hs3, maxPoints);
    forall k | 0 <= k < |r|
      ensures IsSegmentCut(r[k], cands) || IsPhraseCut(r[k], cands) || (k == |r| - 1 && r[k] == Placeholder)
    {
      assert r[k] == hs3[k];
      if k < |hs| {
        assert hs3[k] == hs[k] && hs[k] in hs;
      }
    }
  }

  /** What the passes after splitting return, for any list of candidates. */
  lemma HighlightsOfSpec(cands: seq<string>, maxPoints: int)
    ensures maxPoints >= 1 ==> 1 <= |HighlightsOf(cands, maxPoints)| <= maxPoints
    ensures var r := HighlightsOf(cands, maxPoints);
      forall k :: 0 <= k < |r| ==>
        IsSegmentCut(r[k], cands) || IsPhraseCut(r[k], cands) || (k == |r| - 1 && r[k] == Placeholder)
  {
    var first := FirstPass(cands, 0, {}, [], maxPoints);
    FirstPassSpec(cands, 0, {}, [], maxPoints);
    WithExtrasSpec(cands, maxPoints);
    var hs2 := WithExtras(cands, first, maxPoints);
    FinishSpec(cands, hs2, maxPoints);
  }

  /**
   * Empty text gives no highlights. Otherwise there are between one and
   * `maxPoints` of them, each at most 160 characters; every one but the last
   * is the cut of a segment of length at least 4 or of a phrase of length at
   * least 6, and the last is that or the placeholder.
   */
  lemma HighlightsSpec(text: string, maxPoints: int)
    ensures text == "" ==> Highlights(text, maxPoints) == []
    ensures text != "" && maxPoints >= 1 ==> 1 <= |Highlights(text, maxPoints)| <= maxPoints
    ensures forall h :: h in Highlights(text, maxPoints) ==> |h| <= MaxHighlightLength
    ensures var r := Highlights(text, maxPoints); var cands := Candidates(text);
      text != "" ==> forall k :: 0 <= k < |r| ==>
        IsSegmentCut(r[k], cands) || IsPhraseCut(r[k], cands) || (k == |r| - 1 && r[k] == Placeholder)
  {
    if text != "" {
      var cands := Candidates(text);
      HighlightsOfSpec(cands, maxPoints);
      var r := HighlightsOf(cands, maxPoints);
      forall h | h in r ensures |h| <= MaxHighlightLength {
        var k :| 0 <= k < |r| && r[k] == h;
      }
    }
  }

  lemma HighlightsNonEmpty(text: string, maxPoints: int)
    requires text != "" && maxPoints >= 1
    ensures Highlights(text, maxPoints) != []
  {
    HighlightsSpec(text, maxPoints);
  }

  /** The first loop of build_highlights: new segments of at least 4 characters, cut, until `maxPoints`. */
  method FirstLoop(cands: seq<string>, maxPoints: int) returns (hs: seq<string>, seen: set<string>)
    ensures (hs, seen) == FirstPass(cands, 0, {}, [], maxPoints)
  {
    ghost var first := FirstPass(cands, 0, {}, [], maxPoints);
    hs, seen := [], {};
    var i := 0;
    while i < |cands|
      invariant 0 <= i <= |cands|
      invariant FirstPass(cands, i, seen, hs, maxPoints) == first
    {
      var seg := cands[i];
      if |seg| >= 4 && seg !in seen {
        seen := seen + {seg};
        hs := hs + [Cut(seg)];
        if |hs| >= maxPoints {
          assert (hs, seen) == first;
          return;
        }
      }
      i := i + 1;
    }
  }

  /** The inner loop over the stripped phrases of one segment. */
  method PhraseLoop(parts: seq<string>, seen0: set<string>, extras0: seq<string>)
    returns (extras: seq<string>, seen: set<string>)
    ensures (extras, seen) == PhrasePass(parts, 0, seen0, extras0)
  {
    ghost var target := PhrasePass(parts, 0, seen0, extras0);
    extras, seen := extras0, seen0;
    var j := 0;
    while j < |parts|
      invariant 0 <= j <= |parts|
      invariant PhrasePass(parts, j, seen, extras) == target
    {
      var part := Strip(parts[j]);
      if |part| >= 6 && part !in seen {
        seen := seen + {part};
        extras := extras + [Cut(part)];
      }
      j := j + 1;
    }
  }

  /** The nested loop collecting the new phrases of at least 6 characters, cut. */
  method ExtrasLoop(cands: seq<string>, seen0: set<string>) returns (extras: seq<string>)
    ensures extras == ExtrasPass(cands, 0, seen0, [])
  {
    ghost var target := ExtrasPass(cands, 0, seen0, []);
    var seen := seen0;
    extras := [];
    var i := 0;
    while i < |cands|
      invariant 0 <= i <= |cands|
      invariant ExtrasPass(cands, i, seen, extras) == target
    {
      extras, seen := PhraseLoop(Phrases(cands[i]), seen, extras);
      i := i + 1;
    }
  }

  /** The loop appending extras while the list is short. */
  method TakeExtras(hs0: seq<string>, extras: seq<string>, maxPoints: int) returns (hs: seq<string>)
    requires |hs0| < maxPoints
    ensures hs == hs0 + PyPrefix(extras, maxPoints - |hs0|)
  {
    hs := hs0;
    var k := 0;
    while k < |extras| && |hs| < maxPoints
      invariant 0 <= k <= |extras|
      invariant hs == hs0 + extras[..k] && |hs| <= maxPoints
    {
      hs := hs + [extras[k]];
      k := k + 1;
    }
    assert extras[..k] == PyPrefix(extras, maxPoints - |hs0|);
  }

  /** build_highlights: the three loops of the source with their `seen` set. */
  method BuildHighlights(text: string, maxPoints: int) returns (highlights: seq<string>)
    ensures highlights == Highlights(text, maxPoints)
  {
    if text == "" {
      return [];
    }
    var cands := Candidates(text);
    var hs, seen := FirstLoop(cands, maxPoints);
    if |hs| < maxPoints {
      var extras := ExtrasLoop(cands, seen);
      hs := TakeExtras(hs, extras, maxPoints);
    }
    assert hs == WithExtras(cands, FirstPass(cands, 0, {}, [], maxPoints), maxPoints);
    if |hs| < maxPoints {
      hs := hs + [Placeholder];
    }
    highlights := PyPrefix(hs, maxPoints);
  }

  // ---- fallback_image ----

  const UnsplashBase: string := "https://source.unsplash.com/featured/?"
  const FallbackPrefix: string := "tesla autonomous driving "

  /** `" ".join(title.split()[:4]).strip()`. */
  function FallbackKeywords(title: string): string {
    Strip(Join(" ", PyPrefix(SplitWs(title), 4)))
  }

  /** `fallback_image(title)`. */
  function FallbackImage(title: string, quotePlus: string -> string): string {
    UnsplashBase + quotePlus(FallbackPrefix + FallbackKeywords(title))
  }

  /**
   * The keywords are the first four words of the title, space-joined (the
   * strip removes nothing), and the image URL is the search URL of them.
   */
  lemma FallbackImageSpec(title: string, quotePlus: string -> string)
    ensures FallbackKeywords(title) == Join(" ", PyPrefix(SplitWs(title), 4))
    ensures SplitWs(FallbackKeywords(title)) == PyPrefix(SplitWs(title), 4)
    ensures StartsWith(FallbackImage(title, quotePlus), UnsplashBase)
    ensures FallbackImage(title, quotePlus) != ""
  {
    var ws := PyPrefix(SplitWs(title), 4);
    FirstWords(title, 4);
    StripJoinedWords(ws);
    SplitJoin(ws);
    FallbackImageStart(title, quotePlus);
  }

  lemma FirstWords(title: string, k: nat)
    ensures forall w :: w in PyPrefix(SplitWs(title), k) ==> |w| > 0 && NoSpace(w)
  {
    var ws := SplitWs(title);
    forall w | w in PyPrefix(ws, k) ensures w in ws {
      var i :| 0 <= i < |PyPrefix(ws, k)| && PyPrefix(ws, k)[i] == w;
      assert ws[i] == w;
    }
  }

  lemma FallbackImageStart(title: string, quotePlus: string -> string)
    ensures StartsWith(FallbackImage(title, quotePlus), UnsplashBase)
    ensures FallbackImage(title, quotePlus) != ""
  {
    var r := FallbackImage(title, quotePlus);
    assert r[..|UnsplashBase|] == UnsplashBase;
  }

  // ---- enrich_items ----

  /** The highlights list `build_highlights(item.summary)` uses by default. */
  const DefaultPoints: int := 3

  /** `article_data.get("image") or item.image_url or fallback_image(item.title)`. */
  function EnrichedImage(item: NewsItem, data: ArticleData, quotePlus: string -> string): string {
    if Present(data.image) then data.image.value
    else if Present(item.imageUrl) then item.imageUrl.value
    else FallbackImage(item.title, quotePlus)
  }

  /** `article_data.get("highlights") or item.highlights or build_highlights(item.summary)`. */
  function EnrichedHighlights(item: NewsItem, data: ArticleData): seq<string> {
    if data.highlights != [] then data.highlights
    else if item.highlights.Some? && item.highlights.value != [] then item.highlights.value
    else Highlights(item.summary, DefaultPoints)
  }

  /** One item of `enrich_items`, given what the cache resolved for its URL. */
  function Enriched(item: NewsItem, data: ArticleData, quotePlus: string -> string): (e: NewsItem)
    ensures e.source == item.source && e.title == item.title && e.summary == item.summary
      && e.url == item.url && e.publishedAt == item.publishedAt && e.language == item.language
  {
    item.(imageUrl := Some(EnrichedImage(item, data, quotePlus)), highlights := Some(EnrichedHighlights(item, data)))
  }

  /**
   * The image is always a non-empty URL: the cache's first, then the item's
   * own, then the fallback.
   */
  lemma EnrichedImageSpec(item: NewsItem, data: ArticleData, quotePlus: string -> string)
    ensures EnrichedImage(item, data, quotePlus) != ""
    ensures Present(data.image) ==> EnrichedImage(item, data, quotePlus) == data.image.value
    ensures !Present(data.image) && Present(item.imageUrl) ==>
      EnrichedImage(item, data, quotePlus) == item.imageUrl.value
    ensures !Present(data.image) && !Present(item.imageUrl) ==>
      StartsWith(EnrichedImage(item, data, quotePlus), UnsplashBase)
  {
    FallbackImageSpec(item.title, quotePlus);
  }

  /**
   * The highlights are the cache's when it has some, then the item's own,
   * and otherwise built from the summary, so they are non-empty whenever
   * the summary is.
   */
  lemma EnrichedHighlightsSpec(item: NewsItem, data: ArticleData)
    ensures data.highlights != [] ==> EnrichedHighlights(item, data) == data.highlights
    ensures data.highlights == [] && item.highlights.Some? && item.highlights.value != [] ==>
      EnrichedHighlights(item, data) == item.highlights.value
    ensures item.summary != "" ==> EnrichedHighlights(item, data) != []
  {
    if item.summary != "" {
      HighlightsNonEmpty(item.summary, DefaultPoints);
    }
  }

  /** `enrich_items`: each item in turn, with the resolver standing for the article cache. */
  method EnrichItems(items: seq<NewsItem>, resolve: string -> ArticleData, quotePlus: string -> string)
    returns (enriched: seq<NewsItem>)
    ensures |enriched| == |items|
    ensures forall k :: 0 <= k < |items| ==> enriched[k] == Enriched(items[k], resolve(items[k].url), quotePlus)
  {
    enriched := [];
    var i := 0;
    while i < |items|
      invariant 0 <= i <= |items| && |enriched| == i
      invariant forall k :: 0 <= k < i ==> enriched[k] == Enriched(items[k], resolve(items[k].url), quotePlus)
    {
      var item := items[i];
      var data := resolve(item.url);
      var image := EnrichedImage(item, data, quotePlus);
      var highlights: seq<string>;
      if data.highlights != [] {
        highlights := data.highlights;
      } else if item.highlights.Some? && item.highlights.value != [] {
        highlights := item.highlights.value;
      } else {
        highlights := BuildHighlights(item.summary, DefaultPoints);
      }
      enriched := enriched + [item.(imageUrl := Some(image), highlights := Some(highlights))];
      i := i + 1;
    }
  }
}
