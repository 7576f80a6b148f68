/**
 * The X (Nitter) source after its HTTP request: the parsed snippets are
 * cleaned, kept when they are about autonomy and not about the stock, and
 * turned into news items spaced five minutes apart, newest first.
 * `datetime.now`, `isoformat` and `requests.utils.quote` are parameters, and
 * so is `clean_text`: the functions here hold for any cleaner, and the one
 * the source uses is `NewsText.CleanText` with `html.unescape`
 * (`CleanedAreNormal` below says what that adds).
 */
module XSource {
  import opened Wrappers
  import opened Text
  import opened News
  import opened NewsText
  import MarkdownPosts

  const SourceName: string := "X (Nitter)"
  const SearchUrl: string := "https://nitter.net/search?f=tweets&q="
  /** Five minutes, in seconds: the spacing between the posts' timestamps. */
  const Spacing: int := 300

  /** A cleaned snippet is published when it is about autonomy and not about the stock. */
  predicate Qualifies(combined: string) {
    !IsStockRelated(combined) && IsAutonomyRelated(combined)
  }

  /** The cleaned snippets that qualify, in order. */
  function Qualifying(snippets: seq<string>, clean: string -> string): seq<string> {
    if snippets == [] then []
    else
      var c := clean(snippets[|snippets| - 1]);
      Qualifying(snippets[..|snippets| - 1], clean) + (if Qualifies(c) then [c] else [])
  }

  /** The item built for one qualifying snippet with timestamp `ts`. */
  function XPost(combined: string, ts: int, clean: string -> string,
                 quote: string -> string, isoformat: int -> string): NewsItem
  {
    var title := CutText(clean(combined), 80);
    NewsItem(SourceName, "X : " + title, CutText(clean(combined), 200),
             SearchUrl + quote(title), isoformat(ts), Some(DefaultImageUrl), Some("multi"), None)
  }

  /** The loop stops once `limit` posts are made, but only after making one. */
  function Cap(limit: int): nat { if limit >= 1 then limit else 1 }

  /** `fetch_x_snippets` from the parsed snippets on. */
  function XSnippets(snippets: seq<string>, limit: int, now: int, clean: string -> string,
                     quote: string -> string, isoformat: int -> string): seq<NewsItem>
  {
    var q := Qualifying(snippets, clean);
    var n := if |q| < Cap(limit) then |q| else Cap(limit);
    seq(n, k requires 0 <= k < n => XPost(q[k], now - Spacing * k, clean, quote, isoformat))
  }

  lemma {:induction false} QualifyingAppend(a: seq<string>, b: seq<string>, clean: string -> string)
    ensures Qualifying(a + b, clean) == Qualifying(a, clean) + Qualifying(b, clean)
    decreases |b|
  {
    if b == [] {
      assert a + b == a;
    } else {
      var bp := b[..|b| - 1];
      assert (a + b)[..|a + b| - 1] == a + bp;
      assert (a + b)[|a + b| - 1] == b[|b| - 1];
      QualifyingAppend(a, bp, clean);
    }
  }

  lemma QualifyingSnoc(snippets: seq<string>, i: nat, clean: string -> string)
    requires i < |snippets|
    ensures var c := clean(snippets[i]);
      Qualifying(snippets[..i + 1], clean)
        == Qualifying(snippets[..i], clean) + (if Qualifies(c) then [c] else [])
  {
    assert snippets[..i + 1][..i] == snippets[..i];
  }

  /**
   * The qualifying snippets are exactly the cleaned snippets that are about
   * autonomy and not about the stock, in input order.
   */
  lemma {:induction false} QualifyingSpec(snippets: seq<string>, clean: string -> string)
    ensures forall c :: c in Qualifying(snippets, clean) ==> Qualifies(c)
    ensures forall i :: 0 <= i < |snippets| && Qualifies(clean(snippets[i])) ==>
      clean(snippets[i]) in Qualifying(snippets, clean)
    ensures |Qualifying(snippets, clean)| <= |snippets|
  {
    if snippets != [] {
      var prefix := snippets[..|snippets| - 1];
      QualifyingSpec(prefix, clean);
      forall i | 0 <= i < |snippets| - 1 ensures snippets[i] == prefix[i] {
      }
    }
  }

  /**
   * At most `max(1, limit)` items; the k-th is built from the k-th
   * qualifying snippet and stamped `k` times five minutes before `now`; all
   * qualifying snippets are used when there are fewer than the cap.
   */
  lemma XSnippetsSpec(snippets: seq<string>, limit: int, now: int, clean: string -> string,
                      quote: string -> string, isoformat: int -> string)
    ensures var r := XSnippets(snippets, limit, now, clean, quote, isoformat);
      var q := Qualifying(snippets, clean);
      |r| <= Cap(limit) && |r| <= |q|
      && (|q| <= Cap(limit) ==> |r| == |q|)
      && (forall k :: 0 <= k < |r| ==>
            r[k].publishedAt == isoformat(now - 300 * k)
            && r[k].title == "X : " + CutText(clean(q[k]), 80)
            && r[k].source == "X (Nitter)" && r[k].imageUrl == Some(DefaultImageUrl))
  {
  }

  /** The loop of `fetch_x_snippets` over the parsed snippets. */
  method FetchXSnippets(snippets: seq<string>, limit: int, now: int, clean: string -> string,
                        quote: string -> string, isoformat: int -> string)
    returns (posts: seq<NewsItem>)
    ensures posts == XSnippets(snippets, limit, now, clean, quote, isoformat)
  {
    posts := [];
    var timestamp := now;
    var i := 0;
    while i < |snippets|
      invariant 0 <= i <= |snippets|
      invariant |posts| < Cap(limit)
      invariant MadeFrom(posts, Qualifying(snippets[..i], clean), now, clean, quote, isoformat)
      invariant timestamp == now - Spacing * |posts|
    {
      QualifyingSnoc(snippets, i, clean);
      var combined := clean(snippets[i]);
      if IsStockRelated(combined) {
        i := i + 1;
        continue;
      }
      if !IsAutonomyRelated(combined) {
        i := i + 1;
        continue;
      }
      var summary := CutText(clean(combined), 200);
      var title := CutText(clean(combined), 80);
      var post := NewsItem(SourceName, "X : " + title, summary, SearchUrl + quote(title),
                           isoformat(timestamp), Some(DefaultImageUrl), Some("multi"), None);
      assert post == XPost(combined, now - Spacing * |posts|, clean, quote, isoformat);
      posts := posts + [post];
      timestamp := timestamp - Spacing;
      if |posts| >= limit {
        StopsAtCap(snippets, i + 1, limit, now, clean, quote, isoformat, posts);
        return;
      }
      i := i + 1;
    }
    StopsAtCap(snippets, i, limit, now, clean, quote, isoformat, posts);
  }

  /** `posts` are the items built from the qualifying snippets `q`, in order. */
  predicate MadeFrom(posts: seq<NewsItem>, q: seq<string>, now: int, clean: string -> string,
                     quote: string -> string, isoformat: int -> string)
  {
    |posts| == |q| && forall k :: 0 <= k < |q| ==> posts[k] == XPost(q[k], now - Spacing * k, clean, quote, isoformat)
  }

  /** The loop's result once it stops, at the cap or at the end of the snippets. */
  lemma StopsAtCap(snippets: seq<string>, i: nat, limit: int, now: int, clean: string -> string,
                   quote: string -> string, isoformat: int -> string, posts: seq<NewsItem>)
    requires i <= |snippets|
    requires MadeFrom(posts, Qualifying(snippets[..i], clean), now, clean, quote, isoformat)
    requires |posts| <= Cap(limit)
    requires i == |snippets| || |posts| == Cap(limit)
    ensures posts == XSnippets(snippets, limit, now, clean, quote, isoformat)
  {
    var q := Qualifying(snippets[..i], clean);
    assert snippets == snippets[..i] + snippets[i..];
    QualifyingAppend(snippets[..i], snippets[i..], clean);
    if i == |snippets| {
      assert snippets[i..] == [];
    }
    MadeFromPrefix(posts, q, Qualifying(snippets[i..], clean), Cap(limit), now, clean, quote, isoformat);
  }

  /** Items made from a prefix of the qualifying texts, as many as the cap lets through. */
  lemma MadeFromPrefix(posts: seq<NewsItem>, q: seq<string>, more: seq<string>, cap: nat, now: int,
                       clean: string -> string, quote: string -> string, isoformat: int -> string)
    requires MadeFrom(posts, q, now, clean, quote, isoformat)
    requires |posts| <= cap && (more == [] || |posts| == cap)
    ensures var all := q + more; var n := if |all| < cap then |all| else cap;
      posts == seq(n, k requires 0 <= k < n => XPost(all[k], now - Spacing * k, clean, quote, isoformat))
  {
    var all := q + more;
    forall k | 0 <= k < |q| ensures all[k] == q[k] { }
  }

  /** `fetch_x_snippets` after the page is fetched: parse the markdown, then build the items. */
  method XSnippetsFromPage(markdown: string, limit: int, now: int, clean: string -> string,
                           quote: string -> string, isoformat: int -> string)
    returns (posts: seq<NewsItem>)
    ensures posts == XSnippets(MarkdownPosts.XPosts(markdown), limit, now, clean, quote, isoformat)
  {
    var snippets := MarkdownPosts.ParseMarkdown(markdown, MarkdownPosts.XDropped);
    posts := FetchXSnippets(snippets, limit, now, clean, quote, isoformat);
  }

  /** With the source's cleaner every published text is whitespace-normal. */
  lemma {:induction false} CleanedAreNormal(snippets: seq<string>, clean: string -> string, unescape: string -> string)
    requires forall s :: clean(s) == CleanText(s, unescape)
    ensures forall c :: c in Qualifying(snippets, clean) ==> IsNormalWs(c)
    decreases |snippets|
  {
    if snippets != [] {
      CleanedAreNormal(snippets[..|snippets| - 1], clean, unescape);
      CleanTextIsNormalized(snippets[|snippets| - 1], unescape);
    }
  }
}
