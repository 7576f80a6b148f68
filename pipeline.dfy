/**
 * The selection pipeline of the news collector: deduplication, topic focus,
 * feedback exclusion, the 24 h / 48 h recency windows, near-duplicate
 * suppression, score-ordered backfill and the final ranking. The clock is the
 * parameter `now`, `datetime.fromisoformat` is the parameter `iso`, and
 * `difflib.SequenceMatcher(None, a, b).ratio()` is the parameter `ratio`.
 */
module Pipeline {
  import opened Wrappers
  import opened News
  import Text
  import NewsText
  import Ordered
  import StableSort
  import Feedback

  const Hour: int := 3600

  // ---- get_item_datetime / filter_recent ----

  /** The item's time is at or after `now - hours`. */
  predicate Within(item: NewsItem, now: int, iso: string -> Option<int>, hours: int) {
    ItemTime(item, now, iso) >= now - hours * Hour
  }

  /** `filter_recent(items, hours)`. */
  function FilterRecent(items: seq<NewsItem>, hours: int, now: int, iso: string -> Option<int>): seq<NewsItem> {
    Ordered.Filter(items, x => Within(x, now, iso, hours))
  }

  /** The window is inclusive at its boundary and keeps the input order. */
  lemma FilterRecentSpec(items: seq<NewsItem>, hours: int, now: int, iso: string -> Option<int>, x: NewsItem)
    ensures x in FilterRecent(items, hours, now, iso) <==> x in items && ItemTime(x, now, iso) >= now - hours * Hour
    ensures Ordered.IsSubseq(FilterRecent(items, hours, now, iso), items)
  {
    if x in items && Within(x, now, iso, hours) {
      Ordered.FilterComplete(items, x => Within(x, now, iso, hours), x);
    }
    Ordered.FilterSubseq(items, x => Within(x, now, iso, hours));
  }

  /** An item without a parseable time counts as published now, so every window keeps it. */
  lemma UnparsedIsRecent(item: NewsItem, hours: nat, now: int, iso: string -> Option<int>)
    requires iso(item.publishedAt).None?
    ensures Within(item, now, iso, hours)
  {
  }

  // ---- deduplicate ----

  /** `deduplicate`: the loop filling an insertion-ordered dict keyed by `url or title`. */
  method Deduplicate(items: seq<NewsItem>) returns (unique: seq<NewsItem>)
    ensures unique == Ordered.FirstPerKey(items, Key)
  {
    unique := Ordered.KeepFirstPerKey(items, Key);
  }

  predicate Keyless(item: NewsItem) { item.url == "" && item.title == "" }

  /**
   * The kept items have distinct keys, cover every key of the input, appear
   * in input order, and all keyless items collapse into one.
   */
  lemma DeduplicateSpec(items: seq<NewsItem>)
    ensures var r := Ordered.FirstPerKey(items, Key);
      Ordered.DistinctKeys(r, Key)
      && Ordered.Keys(r, Key) == Ordered.Keys(items, Key)
      && Ordered.IsSubseq(r, items)
      && forall i, j :: 0 <= i < |r| && 0 <= j < |r| && Keyless(r[i]) && Keyless(r[j]) ==> i == j
  {
    var r := Ordered.FirstPerKey(items, Key);
    Ordered.FirstPerKeyDistinct(items, Key);
    Ordered.FirstPerKeyKeys(items, Key);
    Ordered.FirstPerKeySubseq(items, Key);
    forall i, j | 0 <= i < |r| && 0 <= j < |r| && Keyless(r[i]) && Keyless(r[j])
      ensures i == j
    {
      assert Key(r[i]) == Key(r[j]);
    }
  }

  // ---- ensure_autonomy_focus ----

  predicate IsFocused(item: NewsItem) {
    NewsText.IsAutonomyRelated(item.title + " " + item.summary)
  }

  /** `ensure_autonomy_focus`. */
  function EnsureAutonomyFocus(items: seq<NewsItem>): seq<NewsItem> {
    Ordered.Filter(items, IsFocused)
  }

  /** Exactly the autonomy-related items are kept, in input order. */
  lemma EnsureAutonomyFocusSpec(items: seq<NewsItem>, x: NewsItem)
    ensures x in EnsureAutonomyFocus(items) <==> x in items && IsFocused(x)
    ensures Ordered.IsSubseq(EnsureAutonomyFocus(items), items)
  {
    if x in items && IsFocused(x) {
      Ordered.FilterComplete(items, IsFocused, x);
    }
    Ordered.FilterSubseq(items, IsFocused);
  }

  // ---- string_similarity / filter_similar ----

  /** `string_similarity`: zero when either side is empty. */
  function StringSimilarity(a: string, b: string, ratio: (string, string) -> real): (r: real)
    ensures a == "" || b == "" ==> r == 0.0
    ensures a != "" && b != "" ==> r == ratio(a, b)
  {
    if a == "" || b == "" then 0.0 else ratio(a, b)
  }

  /** What `SequenceMatcher.ratio` guarantees: a value in [0, 1], and 1 for equal strings. */
  ghost predicate RatioAxioms(ratio: (string, string) -> real) {
    (forall a, b :: 0.0 <= ratio(a, b) <= 1.0)
    && (forall a :: a != "" ==> ratio(a, a) == 1.0)
  }

  lemma StringSimilaritySpec(a: string, b: string, ratio: (string, string) -> real)
    requires RatioAxioms(ratio)
    ensures 0.0 <= StringSimilarity(a, b, ratio) <= 1.0
    ensures a == b && a != "" ==> StringSimilarity(a, b, ratio) == 1.0
  {
  }

  function Max(a: real, b: real): real { if a >= b then a else b }

  /** The larger of the title and summary similarities reaches the threshold. */
  predicate Similar(item: NewsItem, existing: NewsItem, ratio: (string, string) -> real) {
    Max(StringSimilarity(item.title, existing.title, ratio),
        StringSimilarity(item.summary, existing.summary, ratio)) >= SimilarityThreshold
  }

  /** An item with a title or a summary is similar to itself; one with neither is similar to nothing. */
  lemma SimilarSelf(item: NewsItem, other: NewsItem, ratio: (string, string) -> real)
    requires RatioAxioms(ratio)
    ensures item.title != "" || item.summary != "" ==> Similar(item, item, ratio)
    ensures item.title == "" && item.summary == "" ==> !Similar(item, other, ratio)
  {
  }

  /** `scores.get(item.url, 0.0)`. */
  function ScoreOf(scores: map<string, real>, item: NewsItem): real {
    Get(scores, item.url, 0.0)
  }

  /** The index of the first accepted item the candidate is similar to. */
  function FirstSimilar(filtered: seq<NewsItem>, item: NewsItem, ratio: (string, string) -> real): (r: Option<nat>)
    ensures r.Some? ==> r.value < |filtered| && Similar(item, filtered[r.value], ratio)
    ensures r.Some? ==> forall k :: 0 <= k < r.value ==> !Similar(item, filtered[k], ratio)
    ensures r.None? ==> forall k :: 0 <= k < |filtered| ==> !Similar(item, filtered[k], ratio)
  {
    if filtered == [] then None
    else if Similar(item, filtered[0], ratio) then Some(0)
    else match FirstSimilar(filtered[1..], item, ratio)
      case None => None
      case Some(k) => Some(k + 1)
  }

  /** One iteration of the outer loop of `filter_similar`. */
  function SimilarStep(filtered: seq<NewsItem>, item: NewsItem, scores: map<string, real>,
                       ratio: (string, string) -> real): seq<NewsItem>
  {
    match FirstSimilar(filtered, item, ratio)
    case None => filtered + [item]
    case Some(idx) =>
      if ScoreOf(scores, item) > ScoreOf(scores, filtered[idx]) then filtered[idx := item] else filtered
  }

  /** `filter_similar`, item by item from the front. */
  function FilterSimilarSpec(items: seq<NewsItem>, scores: map<string, real>,
                             ratio: (string, string) -> real): seq<NewsItem>
  {
    if items == [] then []
    else SimilarStep(FilterSimilarSpec(items[..|items| - 1], scores, ratio), items[|items| - 1], scores, ratio)
  }

  /**
   * A candidate dissimilar to every accepted item is appended; otherwise it
   * takes the place of the first similar item only with a strictly greater
   * score, and on a tie the earlier item stays. Nothing else moves.
   */
  lemma SimilarStepSpec(filtered: seq<NewsItem>, item: NewsItem, scores: map<string, real>,
                        ratio: (string, string) -> real)
    ensures var r := SimilarStep(filtered, item, scores, ratio);
      (forall k :: 0 <= k < |filtered| ==> !Similar(item, filtered[k], ratio)) <==> r == filtered + [item]
    ensures var r := SimilarStep(filtered, item, scores, ratio);
      forall idx :: (0 <= idx < |filtered| && Similar(item, filtered[idx], ratio)
        && (forall k :: 0 <= k < idx ==> !Similar(item, filtered[k], ratio))) ==>
          |r| == |filtered|
          && (ScoreOf(scores, item) > ScoreOf(scores, filtered[idx]) ==> r == filtered[idx := item])
          && (ScoreOf(scores, item) <= ScoreOf(scores, filtered[idx]) ==> r == filtered)
  {
    var r := SimilarStep(filtered, item, scores, ratio);
    if !(forall k :: 0 <= k < |filtered| ==> !Similar(item, filtered[k], ratio)) {
      assert |r| == |filtered|;
    }
  }

  lemma FilterSimilarSpecStep(items: seq<NewsItem>, i: nat, scores: map<string, real>,
                              ratio: (string, string) -> real)
    requires i < |items|
    ensures FilterSimilarSpec(items[..i + 1], scores, ratio)
         == SimilarStep(FilterSimilarSpec(items[..i], scores, ratio), items[i], scores, ratio)
  {
    assert items[..i + 1][..i] == items[..i];
  }

  /** The first similar accepted item is the one the scan stops at. */
  lemma FirstSimilarAt(filtered: seq<NewsItem>, item: NewsItem, ratio: (string, string) -> real, idx: nat)
    requires idx < |filtered| && Similar(item, filtered[idx], ratio)
    requires forall k :: 0 <= k < idx ==> !Similar(item, filtered[k], ratio)
    ensures FirstSimilar(filtered, item, ratio) == Some(idx)
  {
  }

  /** The output is never longer than the input and holds only input items. */
  lemma {:induction false} FilterSimilarBounds(items: seq<NewsItem>, scores: map<string, real>,
                                               ratio: (string, string) -> real)
    ensures |FilterSimilarSpec(items, scores, ratio)| <= |items|
    ensures forall x :: x in FilterSimilarSpec(items, scores, ratio) ==> x in items
  {
    if items != [] {
      var p := items[..|items| - 1];
      var last := items[|items| - 1];
      var f := FilterSimilarSpec(p, scores, ratio);
      FilterSimilarBounds(p, scores, ratio);
      assert items == p + [last];
      var r := SimilarStep(f, last, scores, ratio);
      forall x | x in r ensures x in items {
        if x != last {
          match FirstSimilar(f, last, ratio)
          case None =>
            assert x in f;
          case Some(idx) =>
            if ScoreOf(scores, last) > ScoreOf(scores, f[idx]) {
              var k :| 0 <= k < |r| && r[k] == x;
              assert x == f[k];
            }
        }
      }
    }
  }

  /**
   * The inner loop of `filter_similar`: scan the accepted items for the
   * first one the candidate resembles; overwrite it in place when the
   * candidate scores higher, or append the candidate when none resembles it.
   */
  method SimilarScan(filtered: seq<NewsItem>, item: NewsItem, scores: map<string, real>,
                     ratio: (string, string) -> real)
    returns (r: seq<NewsItem>)
    ensures r == SimilarStep(filtered, item, scores, ratio)
  {
    var idx := 0;
    while idx < |filtered|
      invariant 0 <= idx <= |filtered|
      invariant forall k :: 0 <= k < idx ==> !Similar(item, filtered[k], ratio)
    {
      var existing := filtered[idx];
      var titleSim := StringSimilarity(item.title, existing.title, ratio);
      var summarySim := StringSimilarity(item.summary, existing.summary, ratio);
      var similarity := Max(titleSim, summarySim);
      if similarity >= SimilarityThreshold {
        FirstSimilarAt(filtered, item, ratio, idx);
        if ScoreOf(scores, item) > ScoreOf(scores, existing) {
          r := filtered[idx := item];
        } else {
          r := filtered;
        }
        return;
      }
      idx := idx + 1;
    }
    r := filtered + [item];
  }

  /** `filter_similar`; `filtered[idx] = item` overwrites in place. */
  method FilterSimilar(items: seq<NewsItem>, scores: map<string, real>, ratio: (string, string) -> real)
    returns (filtered: seq<NewsItem>)
    ensures filtered == FilterSimilarSpec(items, scores, ratio)
  {
    filtered := [];
    var i := 0;
    while i < |items|
      invariant 0 <= i <= |items|
      invariant filtered == FilterSimilarSpec(items[..i], scores, ratio)
    {
      FilterSimilarSpecStep(items, i, scores, ratio);
      filtered := SimilarScan(filtered, items[i], scores, ratio);
      i := i + 1;
    }
    assert items[..i] == items;
  }

  /**
   * A replacement is not checked against the other accepted items, so the
   * output can hold two items similar to each other: with three titles where
   * the third resembles both others and scores higher than the first, the
   * third replaces the first and stays next to the second.
   */
  lemma FilterSimilarKeepsSimilarPair()
    ensures var ratio := (a: string, b: string) => if a == b || (a == "C" && (b == "A" || b == "B")) then 1.0 else 0.0;
      var a := NewsItem("s", "A", "", "a", "", None, None, None);
      var b := NewsItem("s", "B", "", "b", "", None, None, None);
      var c := NewsItem("s", "C", "", "c", "", None, None, None);
      FilterSimilarSpec([a, b, c], map["c" := 1.0], ratio) == [c, b] && Similar(c, b, ratio)
  {
    var ratio := (a: string, b: string) => if a == b || (a == "C" && (b == "A" || b == "B")) then 1.0 else 0.0;
    var a := NewsItem("s", "A", "", "a", "", None, None, None);
    var b := NewsItem("s", "B", "", "b", "", None, None, None);
    var c := NewsItem("s", "C", "", "c", "", None, None, None);
    var scores := map["c" := 1.0];
    assert [a, b, c][..2] == [a, b];
    assert [a, b][..1] == [a];
    assert [a][..0] == [];
    assert FilterSimilarSpec([a], scores, ratio) == [a];
    assert !Similar(b, a, ratio);
    assert FilterSimilarSpec([a, b], scores, ratio) == [a, b];
    assert Similar(c, a, ratio);
    assert FirstSimilar([a, b], c, ratio) == Some(0);
  }

  // ---- collect_news: the score table and the two expansion loops ----

  /** `{item.url: score(item) for item in items}`: a later item wins. */
  function ScoreTable(items: seq<NewsItem>, score: NewsItem -> real): (r: map<string, real>)
  {
    if items == [] then map[]
    else
      var last := items[|items| - 1];
      ScoreTable(items[..|items| - 1], score)[last.url := score(last)]
  }

  /** Every item's url has a score, so the `setdefault` calls of the expansion loops add nothing. */
  lemma {:induction false} ScoreTableCovers(items: seq<NewsItem>, score: NewsItem -> real, x: NewsItem)
    requires x in items
    ensures x.url in ScoreTable(items, score)
  {
    var p := items[..|items| - 1];
    if x != items[|items| - 1] {
      assert items == p + [items[|items| - 1]];
      ScoreTableCovers(p, score, x);
    }
  }

  /** The score kept for a url is that of the last item carrying it. */
  lemma {:induction false} ScoreTableLast(items: seq<NewsItem>, score: NewsItem -> real, i: nat)
    requires i < |items| && forall j :: i < j < |items| ==> items[j].url != items[i].url
    ensures items[i].url in ScoreTable(items, score) && ScoreTable(items, score)[items[i].url] == score(items[i])
  {
    var p := items[..|items| - 1];
    var last := items[|items| - 1];
    var u := items[i].url;
    if i < |items| - 1 {
      assert p[i] == items[i];
      assert forall j :: i < j < |p| ==> p[j] == items[j];
      ScoreTableLast(p, score, i);
      assert last.url != u;
      assert ScoreTable(items, score) == ScoreTable(p, score)[last.url := score(last)];
    }
  }

  /** `feedback.score_article(item.title, item.summary)` with the given weights. */
  function ArticleScore(weights: map<string, real>): NewsItem -> real {
    (x: NewsItem) => Feedback.Score(weights, x.title, x.summary)
  }

  /** The urls of the items. */
  function UrlsOf(items: seq<NewsItem>): set<string> {
    set x | x in items :: x.url
  }

  /**
   * The expansion loops of `collect_news`: take pool items in order whose url
   * is not yet used and that `keep` accepts, until there are `MaxItems`.
   */
  function Expansion(recent: seq<NewsItem>, urls: set<string>, pool: seq<NewsItem>,
                     keep: NewsItem -> bool): seq<NewsItem>
    decreases |pool|
  {
    if pool == [] || |recent| >= MaxItems then recent
    else
      var x := pool[0];
      if x.url in urls || !keep(x) then Expansion(recent, urls, pool[1..], keep)
      else Expansion(recent + [x], urls + {x.url}, pool[1..], keep)
  }

  /**
   * Expansion only appends, stops at `MaxItems`, and appends accepted pool
   * items whose urls are pairwise distinct and new.
   */
  lemma {:induction false} ExpansionSpec(recent: seq<NewsItem>, urls: set<string>, pool: seq<NewsItem>,
                                         keep: NewsItem -> bool)
    ensures var r := Expansion(recent, urls, pool, keep);
      |recent| <= |r| && r[..|recent|] == recent
      && (|recent| >= MaxItems ==> r == recent)
      && (|recent| < MaxItems ==> |r| <= MaxItems)
      && (forall k :: |recent| <= k < |r| ==> r[k] in pool && keep(r[k]) && r[k].url !in urls)
      && (forall k, l :: |recent| <= k < l < |r| ==> r[k].url != r[l].url)
    decreases |pool|
  {
    if pool != [] && |recent| < MaxItems {
      var x := pool[0];
      var rest := pool[1..];
      assert forall y :: y in rest ==> y in pool;
      if x.url in urls || !keep(x) {
        ExpansionSpec(recent, urls, rest, keep);
      } else {
        var recent' := recent + [x];
        ExpansionSpec(recent', urls + {x.url}, rest, keep);
        var r := Expansion(recent', urls + {x.url}, rest, keep);
        assert r[..|recent'|] == recent';
        assert r[..|recent|] == recent by {
          assert r[..|recent|] == r[..|recent'|][..|recent|];
        }
        assert r[|recent|] == x;
      }
    }
  }

  /** One expansion loop; `urls` starts as the urls of `recent`. */
  method Expand(recent: seq<NewsItem>, pool: seq<NewsItem>, keep: NewsItem -> bool)
    returns (r: seq<NewsItem>)
    ensures r == Expansion(recent, UrlsOf(recent), pool, keep)
  {
    var urls := set x | x in recent :: x.url;
    r := recent;
    var i := 0;
    while i < |pool|
      invariant 0 <= i <= |pool|
      invariant Expansion(r, urls, pool[i..], keep) == Expansion(recent, UrlsOf(recent), pool, keep)
    {
      if |r| >= MaxItems {
        break;
      }
      var item := pool[i];
      assert pool[i..][1..] == pool[i + 1..];
      if item.url in urls || !keep(item) {
        i := i + 1;
        continue;
      }
      r := r + [item];
      urls := urls + {item.url};
      i := i + 1;
    }
  }

  // ---- collect_news: backfill ----

  /**
   * The backfill loop: candidates in order, each appended unless it is
   * similar to an item already present, until there are `MaxItems`.
   */
  function Backfill(recent: seq<NewsItem>, candidates: seq<NewsItem>, ratio: (string, string) -> real): seq<NewsItem>
    decreases |candidates|
  {
    if candidates == [] || |recent| >= MaxItems then recent
    else
      var c := candidates[0];
      if exists e | e in recent :: Similar(c, e, ratio) then Backfill(recent, candidates[1..], ratio)
      else Backfill(recent + [c], candidates[1..], ratio)
  }

  /**
   * Backfill only appends, stops at `MaxItems`, and every appended item is a
   * candidate dissimilar to every item before it.
   */
  lemma BackfillSpec(recent: seq<NewsItem>, candidates: seq<NewsItem>, ratio: (string, string) -> real)
    ensures var r := Backfill(recent, candidates, ratio);
      |recent| <= |r| && r[..|recent|] == recent
      && (|recent| >= MaxItems ==> r == recent)
      && (|recent| < MaxItems ==> |r| <= MaxItems)
      && (forall k :: |recent| <= k < |r| ==> r[k] in candidates)
      && (forall k, j :: |recent| <= k < |r| && 0 <= j < k ==> !Similar(r[k], r[j], ratio))
  {
    BackfillShape(recent, candidates, ratio);
    BackfillAdded(recent, candidates, ratio);
  }

  /** Backfill keeps what it starts from in front and stops at `MaxItems`. */
  lemma {:induction false} BackfillShape(recent: seq<NewsItem>, candidates: seq<NewsItem>, ratio: (string, string) -> real)
    ensures var r := Backfill(recent, candidates, ratio);
      |recent| <= |r| && r[..|recent|] == recent
      && (|recent| >= MaxItems ==> r == recent)
      && (|recent| < MaxItems ==> |r| <= MaxItems)
    decreases |candidates|
  {
    if candidates != [] && |recent| < MaxItems {
      var c := candidates[0];
      if exists e | e in recent :: Similar(c, e, ratio) {
        BackfillShape(recent, candidates[1..], ratio);
      } else {
        var recent' := recent + [c];
        BackfillShape(recent', candidates[1..], ratio);
        var r := Backfill(recent', candidates[1..], ratio);
        assert r[..|recent|] == r[..|recent'|][..|recent|];
      }
    }
  }

  /** Every appended item is a candidate dissimilar to every item before it. */
  lemma {:induction false} BackfillAdded(recent: seq<NewsItem>, candidates: seq<NewsItem>, ratio: (string, string) -> real)
    ensures var r := Backfill(recent, candidates, ratio);
      (forall k :: |recent| <= k < |r| ==> r[k] in candidates)
      && (forall k, j :: |recent| <= k < |r| && 0 <= j < k ==> !Similar(r[k], r[j], ratio))
    decreases |candidates|
  {
    if candidates != [] && |recent| < MaxItems {
      var c := candidates[0];
      var rest := candidates[1..];
      assert forall y :: y in rest ==> y in candidates;
      if exists e | e in recent :: Similar(c, e, ratio) {
        BackfillAdded(recent, rest, ratio);
        assert Backfill(recent, candidates, ratio) == Backfill(recent, rest, ratio);
      } else {
        var recent' := recent + [c];
        BackfillAdded(recent', rest, ratio);
        BackfillShape(recent', rest, ratio);
        var r := Backfill(recent', rest, ratio);
        assert r[|recent|] == c;
        forall j | 0 <= j < |recent| ensures !Similar(r[|recent|], r[j], ratio) {
          assert r[j] == recent'[j] == recent[j];
          assert r[j] in recent;
        }
      }
    }
  }

  method BackfillLoop(recent: seq<NewsItem>, candidates: seq<NewsItem>, ratio: (string, string) -> real)
    returns (r: seq<NewsItem>)
    ensures r == Backfill(recent, candidates, ratio)
  {
    r := recent;
    var i := 0;
    while i < |candidates|
      invariant 0 <= i <= |candidates|
      invariant Backfill(r, candidates[i..], ratio) == Backfill(recent, candidates, ratio)
    {
      if |r| >= MaxItems {
        break;
      }
      var candidate := candidates[i];
      assert candidates[i..][1..] == candidates[i + 1..];
      var duplicate := false;
      var j := 0;
      while j < |r|
        invariant 0 <= j <= |r|
        invariant !duplicate ==> forall k :: 0 <= k < j ==> !Similar(candidate, r[k], ratio)
        invariant duplicate ==> exists e | e in r :: Similar(candidate, e, ratio)
      {
        var existing := r[j];
        var titleSim := StringSimilarity(candidate.title, existing.title, ratio);
        var summarySim := StringSimilarity(candidate.summary, existing.summary, ratio);
        if Max(titleSim, summarySim) >= SimilarityThreshold {
          assert existing in r && Similar(candidate, existing, ratio);
          duplicate := true;
          break;
        }
        j := j + 1;
      }
      if !duplicate {
        assert !exists e | e in r :: Similar(candidate, e, ratio);
        r := r + [candidate];
      }
      i := i + 1;
    }
  }

  // ---- collect_news: the selection ----

  /** The feedback status of the item's url is not "low". */
  predicate NotLow(records: map<string, Feedback.Record>, item: NewsItem) {
    Feedback.StatusIn(records, item.url) != Feedback.Low
  }

  /** `focused` after the exclusion at line 175. */
  function Focused(collected: seq<NewsItem>, records: map<string, Feedback.Record>): seq<NewsItem> {
    Ordered.Filter(EnsureAutonomyFocus(Ordered.FirstPerKey(collected, Key)), x => NotLow(records, x))
  }

  /** The ranking `(scores.get(url, 0.0), get_item_datetime(item))`, descending. */
  function Rank(scores: map<string, real>, now: int, iso: string -> Option<int>): (NewsItem, NewsItem) -> bool {
    StableSort.DescendingByPair((x: NewsItem) => ScoreOf(scores, x), (x: NewsItem) => ItemTime(x, now, iso))
  }

  lemma FilterKeepsAll<T>(xs: seq<T>, p: T -> bool)
    requires forall x :: x in xs ==> p(x)
    ensures Ordered.Filter(xs, p) == xs
  {
    if xs != [] {
      assert xs == xs[..|xs| - 1] + [xs[|xs| - 1]];
      FilterKeepsAll(xs[..|xs| - 1], p);
    }
  }

  /** The expansion test of the first loop: the item is not marked "low". */
  function NotLowOf(records: map<string, Feedback.Record>): NewsItem -> bool {
    (x: NewsItem) => NotLow(records, x)
  }

  /** The expansion test of the second loop: not marked "low" and within 48 h. */
  function FallbackKeep(records: map<string, Feedback.Record>, now: int, iso: string -> Option<int>): NewsItem -> bool {
    (x: NewsItem) => NotLow(records, x) && Within(x, now, iso, RecentFallbackHours)
  }

  /**
   * The window `collect_news` builds before suppression: the 24 h items,
   * widened while short of `MaxItems` first by the 48 h items, then by every
   * focused item within 48 h.
   */
  function Window(focused: seq<NewsItem>, records: map<string, Feedback.Record>, now: int,
                  iso: string -> Option<int>): seq<NewsItem>
  {
    var r24 := FilterRecent(focused, RecentHours, now, iso);
    var r48 := if |r24| < MaxItems
      then Expansion(r24, UrlsOf(r24), FilterRecent(focused, RecentFallbackHours, now, iso), NotLowOf(records))
      else r24;
    if |r48| < MaxItems then Expansion(r48, UrlsOf(r48), focused, FallbackKeep(records, now, iso)) else r48
  }

  /**
   * An expansion that ends short of `MaxItems` has taken every accepted pool
   * item whose url was not already used.
   */
  lemma {:induction false} ExpansionComplete(recent: seq<NewsItem>, urls: set<string>, pool: seq<NewsItem>,
                                             keep: NewsItem -> bool)
    ensures var r := Expansion(recent, urls, pool, keep);
      |r| < MaxItems ==> forall x :: x in pool && keep(x) ==> x.url in urls || x.url in UrlsOf(r)
    decreases |pool|
  {
    if pool != [] && |recent| < MaxItems {
      var x := pool[0];
      var rest := pool[1..];
      assert pool == [x] + rest;
      if x.url in urls || !keep(x) {
        ExpansionComplete(recent, urls, rest, keep);
      } else {
        var recent' := recent + [x];
        ExpansionComplete(recent', urls + {x.url}, rest, keep);
        ExpansionSpec(recent', urls + {x.url}, rest, keep);
        var r := Expansion(recent', urls + {x.url}, rest, keep);
        assert r[|recent|] == recent'[|recent|] == x;
        assert x.url in UrlsOf(r);
      }
    }
  }

  /** An expansion keeps every url of the list it starts from. */
  lemma ExpansionKeepsUrls(recent: seq<NewsItem>, pool: seq<NewsItem>, keep: NewsItem -> bool, url: string)
    requires url in UrlsOf(recent)
    ensures url in UrlsOf(Expansion(recent, UrlsOf(recent), pool, keep))
  {
    ExpansionSpec(recent, UrlsOf(recent), pool, keep);
    var w := Expansion(recent, UrlsOf(recent), pool, keep);
    var k :| 0 <= k < |recent| && recent[k].url == url;
    assert w[k] == recent[k];
  }

  /**
   * The window is filled: when it ends with fewer than `MaxItems` items,
   * every focused item within 48 h and not marked "low" has its url there.
   */
  lemma WindowFills(focused: seq<NewsItem>, records: map<string, Feedback.Record>, now: int,
                    iso: string -> Option<int>, x: NewsItem)
    requires x in focused && NotLow(records, x) && Within(x, now, iso, RecentFallbackHours)
    ensures |Window(focused, records, now, iso)| < MaxItems ==> x.url in UrlsOf(Window(focused, records, now, iso))
  {
    var r24 := FilterRecent(focused, RecentHours, now, iso);
    var r48 := if |r24| < MaxItems
      then Expansion(r24, UrlsOf(r24), FilterRecent(focused, RecentFallbackHours, now, iso), NotLowOf(records))
      else r24;
    assert Window(focused, records, now, iso)
        == if |r48| < MaxItems then Expansion(r48, UrlsOf(r48), focused, FallbackKeep(records, now, iso)) else r48;
    if |r48| < MaxItems {
      var keep := FallbackKeep(records, now, iso);
      assert keep(x);
      ExpansionComplete(r48, UrlsOf(r48), focused, keep);
      if x.url in UrlsOf(r48) {
        ExpansionKeepsUrls(r48, focused, keep, x.url);
      }
    }
  }

  /**
   * Lines 178-206 of `collect_news`: the 24 h window, the expansion to 48 h,
   * the second expansion over all focused items, and the hard cut at 48 h,
   * which removes nothing.
   */
  method RecentWindow(focused: seq<NewsItem>, records: map<string, Feedback.Record>, now: int,
                      iso: string -> Option<int>)
    returns (recent: seq<NewsItem>)
    ensures recent == Window(focused, records, now, iso)
    ensures forall x :: x in recent ==> x in focused && Within(x, now, iso, RecentFallbackHours)
    ensures var r24 := FilterRecent(focused, RecentHours, now, iso);
      |r24| <= |recent| && recent[..|r24|] == r24
      && (|r24| >= MaxItems ==> recent == r24)
      && (|r24| < MaxItems ==> |recent| <= MaxItems)
  {
    var within48 := (x: NewsItem) => Within(x, now, iso, RecentFallbackHours);
    var good := (x: NewsItem) => x in focused && Within(x, now, iso, RecentFallbackHours);
    recent := FilterRecent(focused, RecentHours, now, iso);
    ghost var r24 := recent;
    forall x | x in recent ensures good(x) {
      FilterRecentSpec(focused, RecentHours, now, iso, x);
    }

    if |recent| < MaxItems {
      var extended := FilterRecent(focused, RecentFallbackHours, now, iso);
      forall x | x in extended && NotLowOf(records)(x) ensures good(x) {
        FilterRecentSpec(focused, RecentFallbackHours, now, iso, x);
      }
      recent := Expand(recent, extended, NotLowOf(records));
      ExpandedStays(r24, extended, NotLowOf(records), good);
    }

    if |recent| < MaxItems {
      ghost var r0 := recent;
      recent := Expand(recent, focused, FallbackKeep(records, now, iso));
      ExpandedStays(r0, focused, FallbackKeep(records, now, iso), good);
      assert recent[..|r24|] == r0[..|r24|];
    }

    // the hard cut at 48 h removes nothing: every item is already inside the window
    FilterKeepsAll(recent, within48);
    recent := Ordered.Filter(recent, within48);
  }

  /** An expansion keeps the items it starts from in front and adds only items that pass `keep`. */
  lemma ExpandedStays(r0: seq<NewsItem>, pool: seq<NewsItem>, keep: NewsItem -> bool, good: NewsItem -> bool)
    requires forall x :: x in r0 ==> good(x)
    requires forall x :: x in pool && keep(x) ==> good(x)
    ensures var r := Expansion(r0, UrlsOf(r0), pool, keep);
      |r0| <= |r| && r[..|r0|] == r0 && (|r0| < MaxItems ==> |r| <= MaxItems)
      && forall x :: x in r ==> good(x)
  {
    var r := Expansion(r0, UrlsOf(r0), pool, keep);
    ExpansionSpec(r0, UrlsOf(r0), pool, keep);
    forall x | x in r ensures good(x) {
      var k :| 0 <= k < |r| && r[k] == x;
      if k < |r0| {
        assert x == r0[k];
      }
    }
  }

  /** The backfill test: the url is not used by the suppressed list and the item is within 48 h. */
  function Unused(s: seq<NewsItem>, now: int, iso: string -> Option<int>): NewsItem -> bool {
    (x: NewsItem) => x.url !in UrlsOf(s) && Within(x, now, iso, RecentFallbackHours)
  }

  /** The backfill candidates: the unused focused items within 48 h, by descending (score, time). */
  function BackfillCandidates(s: seq<NewsItem>, focused: seq<NewsItem>, scores: map<string, real>, now: int,
                              iso: string -> Option<int>): seq<NewsItem>
  {
    StableSort.Sort(Ordered.Filter(focused, Unused(s, now, iso)), Rank(scores, now, iso))
  }

  /**
   * The candidates are exactly the unused focused items within 48 h, each
   * once per occurrence, in descending (score, time) order, ties in their
   * focused order.
   */
  lemma BackfillCandidatesSpec(s: seq<NewsItem>, focused: seq<NewsItem>, scores: map<string, real>, now: int,
                               iso: string -> Option<int>)
    ensures var c := BackfillCandidates(s, focused, scores, now, iso);
      var pool := Ordered.Filter(focused, Unused(s, now, iso));
      && multiset(c) == multiset(pool)
      && (forall x :: x in c <==> x in focused && x.url !in UrlsOf(s) && Within(x, now, iso, RecentFallbackHours))
      && StableSort.Sorted(c, Rank(scores, now, iso))
      && (forall e :: StableSort.EquivClass(c, Rank(scores, now, iso), e) == StableSort.EquivClass(pool, Rank(scores, now, iso), e))
  {
    var le := Rank(scores, now, iso);
    var pool := Ordered.Filter(focused, Unused(s, now, iso));
    var c := StableSort.Sort(pool, le);
    StableSort.SortPermutation(pool, le);
    StableSort.DescendingByPairPreorder((x: NewsItem) => ScoreOf(scores, x), (x: NewsItem) => ItemTime(x, now, iso));
    StableSort.SortSorted(pool, le);
    forall e ensures StableSort.EquivClass(c, le, e) == StableSort.EquivClass(pool, le, e) {
      StableSort.SortStable(pool, le, e);
    }
    forall x ensures x in c <==> x in focused && x.url !in UrlsOf(s) && Within(x, now, iso, RecentFallbackHours) {
      assert x in c <==> x in multiset(c);
      assert x in pool <==> x in multiset(pool);
      if x in focused {
        Ordered.FilterMember(focused, Unused(s, now, iso), x);
      }
    }
  }

  /** Backfill appends in the order of its candidates. */
  lemma {:induction false} BackfillOrdered(recent: seq<NewsItem>, candidates: seq<NewsItem>,
                                           ratio: (string, string) -> real, le: (NewsItem, NewsItem) -> bool)
    requires StableSort.Sorted(candidates, le)
    ensures var r := Backfill(recent, candidates, ratio);
      |recent| <= |r| && StableSort.Sorted(r[|recent|..], le)
    decreases |candidates|
  {
    BackfillShape(recent, candidates, ratio);
    if candidates != [] && |recent| < MaxItems {
      var c := candidates[0];
      var rest := candidates[1..];
      assert StableSort.Sorted(rest, le) by {
        forall i, j | 0 <= i < j < |rest| ensures le(rest[i], rest[j]) {
          assert rest[i] == candidates[i + 1] && rest[j] == candidates[j + 1];
        }
      }
      if exists e | e in recent :: Similar(c, e, ratio) {
        BackfillOrdered(recent, rest, ratio, le);
        assert Backfill(recent, candidates, ratio) == Backfill(recent, rest, ratio);
      } else {
        var recent' := recent + [c];
        BackfillOrdered(recent', rest, ratio, le);
        BackfillAdded(recent', rest, ratio);
        BackfillShape(recent', rest, ratio);
        var r := Backfill(recent', rest, ratio);
        assert Backfill(recent, candidates, ratio) == r;
        assert r[|recent|] == recent'[|recent|] == c;
        var t := r[|recent|..];
        forall j, k | 0 <= j < k < |t| ensures le(t[j], t[k]) {
          if j == 0 {
            assert t[k] == r[|recent| + k] && r[|recent| + k] in rest;
            var i :| 0 <= i < |rest| && rest[i] == t[k];
            assert candidates[0] == c && candidates[i + 1] == t[k];
          } else {
            assert t[j] == r[|recent'| + j - 1] && t[k] == r[|recent'| + k - 1];
            assert r[|recent'|..][j - 1] == t[j] && r[|recent'|..][k - 1] == t[k];
          }
        }
      }
    }
  }

  /** Lines 218-241 of `collect_news`: the backfill of the suppressed list `s` while it is short. */
  function Backfilled(s: seq<NewsItem>, focused: seq<NewsItem>, scores: map<string, real>, now: int,
                      iso: string -> Option<int>, ratio: (string, string) -> real): seq<NewsItem>
  {
    if |s| < MaxItems then Backfill(s, BackfillCandidates(s, focused, scores, now, iso), ratio) else s
  }

  /**
   * The suppressed list stays in front and a full one is kept as is; the
   * result stops at `MaxItems`; every appended item is an unused focused
   * item within 48 h, dissimilar to every item before it; and the appended
   * items follow the descending (score, time) ranking.
   */
  lemma BackfilledSpec(s: seq<NewsItem>, focused: seq<NewsItem>, scores: map<string, real>, now: int,
                       iso: string -> Option<int>, ratio: (string, string) -> real)
    ensures var r := Backfilled(s, focused, scores, now, iso, ratio);
      && |s| <= |r| && r[..|s|] == s
      && (|s| >= MaxItems ==> r == s)
      && (|s| < MaxItems ==> |r| <= MaxItems)
      && (forall k :: |s| <= k < |r| ==>
            r[k] in focused && r[k].url !in UrlsOf(s) && Within(r[k], now, iso, RecentFallbackHours))
      && (forall k, j :: |s| <= k < |r| && 0 <= j < k ==> !Similar(r[k], r[j], ratio))
      && (forall j, k :: |s| <= j < k < |r| ==> Rank(scores, now, iso)(r[j], r[k]))
  {
    if |s| < MaxItems {
      var candidates := BackfillCandidates(s, focused, scores, now, iso);
      BackfillCandidatesSpec(s, focused, scores, now, iso);
      BackfillSpec(s, candidates, ratio);
      BackfillOrdered(s, candidates, ratio, Rank(scores, now, iso));
      var r := Backfill(s, candidates, ratio);
      forall j, k | |s| <= j < k < |r| ensures Rank(scores, now, iso)(r[j], r[k]) {
        assert r[|s|..][j - |s|] == r[j] && r[|s|..][k - |s|] == r[k];
      }
    }
  }

  /**
   * Lines 216-241 of `collect_news`: near-duplicate suppression, then the
   * backfill; what that promises is `BackfilledSpec`.
   */
  method SuppressAndBackfill(recent: seq<NewsItem>, focused: seq<NewsItem>, scores: map<string, real>,
                             now: int, iso: string -> Option<int>, ratio: (string, string) -> real)
    returns (r: seq<NewsItem>)
    ensures r == Backfilled(FilterSimilarSpec(recent, scores, ratio), focused, scores, now, iso, ratio)
    ensures forall x :: x in r ==> x in recent || (x in focused && Within(x, now, iso, RecentFallbackHours))
  {
    r := FilterSimilar(recent, scores, ratio);
    FilterSimilarBounds(recent, scores, ratio);
    var s := r;
    if |r| < MaxItems {
      var pool := Ordered.Filter(focused, Unused(s, now, iso));
      var candidates := StableSort.Sort(pool, Rank(scores, now, iso));
      r := BackfillLoop(r, candidates, ratio);
    }
    BackfilledSpec(s, focused, scores, now, iso, ratio);
    forall x | x in r ensures x in recent || (x in focused && Within(x, now, iso, RecentFallbackHours)) {
      var k :| 0 <= k < |r| && r[k] == x;
      if k < |s| { assert x == s[k]; }
    }
  }

  /** A non-empty input leaves at least one item after near-duplicate suppression. */
  lemma {:induction false} FilterSimilarNonEmpty(items: seq<NewsItem>, scores: map<string, real>,
                                                 ratio: (string, string) -> real)
    requires items != []
    ensures FilterSimilarSpec(items, scores, ratio) != []
  {
    var p := items[..|items| - 1];
    if p != [] {
      FilterSimilarNonEmpty(p, scores, ratio);
    }
  }

  /** The list `collect_news` sorts at line 242: the window, suppressed and backfilled. */
  function Kept(focused: seq<NewsItem>, records: map<string, Feedback.Record>, scores: map<string, real>,
                now: int, iso: string -> Option<int>, ratio: (string, string) -> real): seq<NewsItem>
  {
    Backfilled(FilterSimilarSpec(Window(focused, records, now, iso), scores, ratio), focused, scores, now, iso, ratio)
  }

  /** The top items of `collect_news`, from the collected items, the feedback state and the clock. */
  function Selected(collected: seq<NewsItem>, records: map<string, Feedback.Record>, weights: map<string, real>,
                    now: int, iso: string -> Option<int>, ratio: (string, string) -> real): seq<NewsItem>
  {
    var focused := Focused(collected, records);
    var scores := ScoreTable(focused, ArticleScore(weights));
    Text.PyPrefix(StableSort.Sort(Kept(focused, records, scores, now, iso, ratio), Rank(scores, now, iso)), MaxItems)
  }

  /**
   * The first `MaxItems` of a stable sort by a total preorder: as many as
   * the list has up to `MaxItems`, none more often than in the list, in
   * order, and among equal keys the first ones of the list in list order.
   */
  lemma {:induction false} TopOfSort(kept: seq<NewsItem>, le: (NewsItem, NewsItem) -> bool)
    requires StableSort.Total(le) && StableSort.Transitive(le)
    ensures var top := Text.PyPrefix(StableSort.Sort(kept, le), MaxItems);
      && |top| == (if |kept| <= MaxItems then |kept| else MaxItems)
      && multiset(top) <= multiset(kept)
      && StableSort.Sorted(top, le)
      && (forall e :: StableSort.EquivClass(top, le, e) <= StableSort.EquivClass(kept, le, e))
  {
    var sorted := StableSort.Sort(kept, le);
    var n := if |sorted| <= MaxItems then |sorted| else MaxItems;
    var top := Text.PyPrefix(sorted, MaxItems);
    StableSort.SortPermutation(kept, le);
    StableSort.SortSorted(kept, le);
    assert |sorted| == |multiset(sorted)| == |kept|;
    assert top == sorted[..n];
    assert sorted == top + sorted[n..];
    assert multiset(sorted) == multiset(top) + multiset(sorted[n..]);
    forall e ensures StableSort.EquivClass(top, le, e) <= StableSort.EquivClass(kept, le, e) {
      StableSort.SortStable(kept, le, e);
      StableSort.EquivClassAppend(top, sorted[n..], le, e);
    }
  }

  /**
   * The published items are the best `MaxItems` of the backfilled list:
   * as many as it has up to `MaxItems`, each taken from it no more often
   * than it occurs there, in descending (score, time) order, and among
   * items with equal keys the first ones of the list, in their list order.
   */
  lemma SelectedSpec(collected: seq<NewsItem>, records: map<string, Feedback.Record>, weights: map<string, real>,
                     now: int, iso: string -> Option<int>, ratio: (string, string) -> real)
    ensures var focused := Focused(collected, records);
      var scores := ScoreTable(focused, ArticleScore(weights));
      var kept := Kept(focused, records, scores, now, iso, ratio);
      var top := Selected(collected, records, weights, now, iso, ratio);
      && |top| == (if |kept| <= MaxItems then |kept| else MaxItems)
      && multiset(top) <= multiset(kept)
      && StableSort.Sorted(top, Rank(scores, now, iso))
      && (forall e :: StableSort.EquivClass(top, Rank(scores, now, iso), e)
                        <= StableSort.EquivClass(kept, Rank(scores, now, iso), e))
  {
    var focused := Focused(collected, records);
    var scores := ScoreTable(focused, ArticleScore(weights));
    StableSort.DescendingByPairPreorder((x: NewsItem) => ScoreOf(scores, x), (x: NewsItem) => ItemTime(x, now, iso));
    TopOfSort(Kept(focused, records, scores, now, iso, ratio), Rank(scores, now, iso));
  }

  /** Whenever some focused item is within 48 h, something is published. */
  lemma SelectedNonEmpty(collected: seq<NewsItem>, records: map<string, Feedback.Record>, weights: map<string, real>,
                         now: int, iso: string -> Option<int>, ratio: (string, string) -> real, x: NewsItem)
    requires x in Focused(collected, records) && Within(x, now, iso, RecentFallbackHours)
    ensures Selected(collected, records, weights, now, iso, ratio) != []
  {
    var focused := Focused(collected, records);
    var scores := ScoreTable(focused, ArticleScore(weights));
    var window := Window(focused, records, now, iso);
    WindowFills(focused, records, now, iso, x);
    assert window != [];
    var s := FilterSimilarSpec(window, scores, ratio);
    FilterSimilarNonEmpty(window, scores, ratio);
    BackfilledSpec(s, focused, scores, now, iso, ratio);
    SelectedSpec(collected, records, weights, now, iso, ratio);
  }

  /** Lines 172-175 of `collect_news`: deduplicate, keep the autonomy items, drop the "low" ones. */
  method FocusItems(collected: seq<NewsItem>, records: map<string, Feedback.Record>)
    returns (focused: seq<NewsItem>)
    ensures focused == Focused(collected, records)
    ensures forall x :: x in focused ==> x in collected && IsFocused(x) && NotLow(records, x)
  {
    var deduped := Deduplicate(collected);
    focused := EnsureAutonomyFocus(deduped);
    focused := Ordered.Filter(focused, (x: NewsItem) => NotLow(records, x));
    Ordered.FirstPerKeySubseq(collected, Key);
    Ordered.SubseqMembers(deduped, collected);
  }

  /** Lines 242-244 of `collect_news`: the stable descending sort and the cut to `MaxItems`. */
  method RankAndCut(recent: seq<NewsItem>, scores: map<string, real>, now: int, iso: string -> Option<int>)
    returns (top: seq<NewsItem>)
    ensures |top| <= MaxItems
    ensures forall x :: x in top ==> x in recent
    ensures StableSort.Sorted(top, Rank(scores, now, iso))
    ensures top == Text.PyPrefix(StableSort.Sort(recent, Rank(scores, now, iso)), MaxItems)
  {
    var sorted := StableSort.Sort(recent, Rank(scores, now, iso));
    StableSort.SortPermutation(recent, Rank(scores, now, iso));
    StableSort.DescendingByPairPreorder((x: NewsItem) => ScoreOf(scores, x), (x: NewsItem) => ItemTime(x, now, iso));
    StableSort.SortSorted(recent, Rank(scores, now, iso));
    forall x | x in sorted ensures x in recent {
      assert x in multiset(sorted);
    }
    top := if |sorted| <= MaxItems then sorted else sorted[..MaxItems];
  }

  /**
   * The selection part of `collect_news`, from the collected items to the
   * ranked top items. Every item published is a collected, autonomy-related
   * item not marked "low", no older than 48 h; there are at most `MaxItems`;
   * and they are ordered by score, then time, both descending.
   */
  method Select(collected: seq<NewsItem>, store: Feedback.FeedbackStore, now: int,
                iso: string -> Option<int>, ratio: (string, string) -> real)
    returns (top: seq<NewsItem>)
    ensures |top| <= MaxItems
    ensures forall x :: x in top ==>
      x in collected && IsFocused(x) && !store.ShouldExclude(x.url) && ItemTime(x, now, iso) >= now - RecentFallbackHours * Hour
    ensures StableSort.Sorted(top, Rank(ScoreTable(Focused(collected, store.records), ArticleScore(store.weights)), now, iso))
    ensures top == Selected(collected, store.records, store.weights, now, iso, ratio)
  {
    var focused := FocusItems(collected, store.records);
    var scores := ScoreTable(focused, ArticleScore(store.weights));
    var window := RecentWindow(focused, store.records, now, iso);
    var kept := SuppressAndBackfill(window, focused, scores, now, iso, ratio);
    top := RankAndCut(kept, scores, now, iso);
    forall x | x in top ensures x in focused && Within(x, now, iso, RecentFallbackHours) {
      assert x in kept;
    }
  }
}
