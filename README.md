# Tesla news curation, car quiz, shop payments and world clock — a Dafny model

The repository holds several small projects. The model covers the logic at
their core:

- **TeslaAD_news**: the relevance feedback store (per-article status, token
  weights learned from status changes, bounded history), the selection
  pipeline (deduplication, topic filter, 24 h / 48 h recency windows,
  near-duplicate suppression, backfill, ranking by score and time), the
  highlight builder, the text helpers, the per-URL article cache, the
  Nitter markdown parser with the X snippet filter, and the Naver relative
  time parser.
- **Tesla_news**: the older pipeline (keyword filters, autonomy-first
  ordering, "one Naver item" rule, widening window) and the bookkeeping of
  its review screen (exclusion filter, low-relevance keys, session reset,
  evaluation entries, merge, timestamp caption).
- **car_picker**: the file-name parser, the quiz state machine, the question
  generator, the index loader and the catalog builder.
- **K-shoppingmall**: Luhn card validation, payload validation, transaction
  ids and method dispatch; the slug de-collision loop.
- **timer**: the GMT offset label, city lookup and selection, the language
  toggle and the night predicate.

Time is integer epoch seconds with the current time passed in as `now`.
Library behaviour the code relies on (`difflib.SequenceMatcher`,
`html.unescape`, `slugify`, `datetime.fromisoformat` and time-zone
conversion, `secrets`, `random`) is a function parameter or a
nondeterministic choice.

## Model

| member | source | states |
|---|---|---|
| Feedback.LabelRoundTrip | TeslaAD_news/src/feedback.py:15-21 | `LABEL_TO_STATUS` is the inverse of `LABEL_MAP`, and no label maps to "neutral" |
| Feedback.TokenizeShape | TeslaAD_news/src/feedback.py:96-98 | every token is at least two characters of `[A-Za-z0-9가-힣]` and has no upper-case letter |
| Feedback.TokenizeJoin | TeslaAD_news/src/feedback.py:176 | the tokens of `f"{title} {summary}"` are the title's tokens followed by the summary's: the space always separates |
| Feedback.ScoreIsOccurrenceSum | TeslaAD_news/src/feedback.py:173-177 | the sum of `weight × count` over the distinct tokens equals the sum of the weights of all token occurrences |
| Feedback.ScoreSplits | TeslaAD_news/src/feedback.py:173-177 | an article's score is the occurrence-weighted sum over its title tokens plus that over its summary tokens; unseen tokens add 0 |
| Feedback.ScoreWithoutWeights | TeslaAD_news/src/feedback.py:175-177 | with an empty weight table every article scores 0 |
| Feedback.Clamp | TeslaAD_news/src/feedback.py:180-185 | the result lies in [-10, 10], equals the input inside that range and the nearer bound outside it |
| Feedback.ReweightedSpec | TeslaAD_news/src/feedback.py:143-149 | every token of the article gets a weight in [-10, 10]; tokens not in the article keep their weight; no other key appears; a bounded table stays bounded |
| Feedback.OccurrenceSumStrict | TeslaAD_news/src/feedback.py:173-177 | weights no lower anywhere and strictly higher on an occurring token give a strictly higher score |
| Feedback.ReweightedWeight | TeslaAD_news/src/feedback.py:146-149 | each weight moves in the direction of the delta, and strictly for a token of the article not yet at that end of the clamp |
| Feedback.ReweightedMovesScore | TeslaAD_news/src/feedback.py:143-149 | for every article, not only the marked one: a positive delta never lowers its score and raises it strictly when it shares a token of the marked article whose weight is below 10; a negative delta never raises it and lowers it strictly when a shared token is above -10 |
| Feedback.CleanReason | TeslaAD_news/src/feedback.py:130 | a cleaned reason is None or a non-empty string with no surrounding whitespace |
| Feedback.DecideLabels | TeslaAD_news/src/feedback.py:122-128 | a missing, empty or unknown label changes nothing; a change always stores the label's status, never "neutral" |
| Feedback.DecideReason | TeslaAD_news/src/feedback.py:130-132 | the stored reason is the trimmed reason (None when blank) for "low" and None for any other status |
| Feedback.DecideRepeat | TeslaAD_news/src/feedback.py:137-142 | repeating "high" changes nothing; repeating "low" changes nothing when the trimmed reasons agree, and otherwise rewrites the record with delta 0 |
| Feedback.DecideDelta | TeslaAD_news/src/feedback.py:143-145 | the weights move exactly when the status changes, by W(new) − W(old) |
| Feedback.Trimmed | TeslaAD_news/src/feedback.py:166-167 | the history keeps at most 200 entries: unchanged when short enough, else its newest 200 |
| Feedback.RecordedSpec | TeslaAD_news/src/feedback.py:151-170 | the store stays well formed (history ≤ 200, weights in [-10, 10], no neutral record); the call reports a change iff the decision applies; no change leaves the store equal; a change stores the record under the url, makes it the newest history entry and keeps every other record |
| Feedback.RecordedMovesScore | TeslaAD_news/src/feedback.py:143-149 | for any article: after a successful "high" call it scores at least as much as before, after a "low" call at most as much; when the status really changed, an article sharing a token of the marked one whose weight was not at that end of the clamp moves strictly |
| Feedback.FeedbackStore.constructor | TeslaAD_news/src/feedback.py:61-66 | a fresh store has no weights, no records and no history |
| Feedback.FeedbackStore.GetStatus | TeslaAD_news/src/feedback.py:110-115 | "neutral" for an unknown url, else the stored status |
| Feedback.FeedbackStore.ShouldExcludeSpec | TeslaAD_news/src/feedback.py:118-119 | an article is excluded iff it is stored with status "low" |
| Feedback.FeedbackStore.GetArticleFeedback | TeslaAD_news/src/feedback.py:101-107 | nothing for an unknown url, else the record with the label of its status |
| Feedback.FeedbackStore.RecordFeedback | TeslaAD_news/src/feedback.py:122-170 | the new store and the result are those of `Recorded` on the old store, and the store stays well formed |
| Feedback.FeedbackStore.ApplyDelta | TeslaAD_news/src/feedback.py:146-149 | the token loop leaves exactly the reweighted table and touches neither records nor history |
| Feedback.FeedbackStore.ApplyDecision | TeslaAD_news/src/feedback.py:146-167 | an applied decision moves the weights, stores the record under the url and appends the trimmed history entry, leaving the store `Applied` describes |
| Feedback.RecordedValid | TeslaAD_news/src/feedback.py:151-170 | recording feedback keeps a well-formed store well formed |
| Feedback.DecideSign | TeslaAD_news/src/feedback.py:143-145 | a move to "high" never lowers weights and a move to "low" never raises them |
| News.ItemTime | TeslaAD_news/src/pipeline.py:26-33 | an item's time is its parsed `published_at`, or `now` when that does not parse |
| News.Key | TeslaAD_news/src/pipeline.py:44 | the identity is the url when non-empty, else the title |
| Pipeline.FilterRecentSpec | TeslaAD_news/src/pipeline.py:36-38 | an item is kept iff its time is at or after `now − hours` (the boundary is inclusive), in input order |
| Pipeline.UnparsedIsRecent | TeslaAD_news/src/pipeline.py:26-33 | an item whose time does not parse counts as published now, so every window of non-negative hours keeps it |
| Pipeline.Deduplicate | TeslaAD_news/src/pipeline.py:41-47 | the ordered-dict loop returns the first item of each `url or title` key, in input order |
| Pipeline.DeduplicateSpec | TeslaAD_news/src/pipeline.py:41-47 | the output keys are distinct and are exactly the input keys; the output is a subsequence of the input; all keyless items collapse into one |
| Pipeline.EnsureAutonomyFocusSpec | TeslaAD_news/src/pipeline.py:74-80 | an item is kept iff `title + " " + summary` is autonomy-related, in input order |
| Pipeline.StringSimilarity | TeslaAD_news/src/pipeline.py:126-129 | 0 when either string is empty, else the matcher's ratio |
| Pipeline.StringSimilaritySpec | TeslaAD_news/src/pipeline.py:126-129 | given the matcher's guarantees, the similarity lies in [0, 1] and is 1 for equal non-empty strings |
| Pipeline.SimilarSelf | TeslaAD_news/src/pipeline.py:137-140 | an item with a title or summary is a near-duplicate of itself; one with neither is a near-duplicate of nothing |
| Pipeline.FirstSimilar | TeslaAD_news/src/pipeline.py:136-144 | the index found is the first accepted item whose max(title, summary) similarity reaches 0.82; none means no accepted item does |
| Pipeline.SimilarStepSpec | TeslaAD_news/src/pipeline.py:134-146 | a candidate dissimilar to all accepted items is appended; otherwise it replaces the first similar item only when its score is strictly greater (a tie keeps the earlier item) and nothing else changes |
| Pipeline.FilterSimilarBounds | TeslaAD_news/src/pipeline.py:132-147 | the output is never longer than the input and holds only input items |
| Pipeline.FilterSimilar | TeslaAD_news/src/pipeline.py:132-147 | the loop with its in-place overwrite computes the item-by-item specification |
| Pipeline.SimilarScan | TeslaAD_news/src/pipeline.py:136-146 | the inner scan overwrites the first resembling accepted item when the candidate scores strictly higher, keeps the list on a tie or a lower score, and appends the candidate when nothing resembles it: one step of the specification |
| Pipeline.FilterSimilarNonEmpty | TeslaAD_news/src/pipeline.py:132-147 | a non-empty input leaves at least one item: the first is always appended and later items never shrink the list |
| Pipeline.FilterSimilarKeepsSimilarPair | TeslaAD_news/src/pipeline.py:141-143 | a replacement is not re-checked against the other accepted items, so the output can contain two near-duplicates (concrete three-item example) |
| Pipeline.ScoreTableCovers | TeslaAD_news/src/pipeline.py:176 | every focused item's url has a score, so the later `setdefault` calls add nothing |
| Pipeline.ScoreTableLast | TeslaAD_news/src/pipeline.py:176 | the score kept for a url is that of the last item carrying it |
| Pipeline.ExpansionSpec | TeslaAD_news/src/pipeline.py:184-204 | an expansion only appends, stops at 12 items, and appends accepted pool items whose urls are new and pairwise distinct |
| Pipeline.Expand | TeslaAD_news/src/pipeline.py:184-191 | the expansion loop with its `urls` set computes the expansion specification |
| Pipeline.BackfillSpec | TeslaAD_news/src/pipeline.py:228-241 | backfill only appends, stops at 12 items, and every appended item is a candidate dissimilar to every item before it |
| Pipeline.BackfillLoop | TeslaAD_news/src/pipeline.py:228-241 | the loop with its inner duplicate scan computes the backfill specification |
| Pipeline.ExpansionComplete | TeslaAD_news/src/pipeline.py:181-204 | an expansion that ends short of 12 items has taken every accepted pool item whose url was not already used |
| Pipeline.ExpansionKeepsUrls | TeslaAD_news/src/pipeline.py:181-204 | an expansion keeps every url of the list it starts from |
| Pipeline.WindowFills | TeslaAD_news/src/pipeline.py:178-206 | when the window ends short of 12 items, every focused item within 48 h and not marked "low" has its url in it |
| Pipeline.RecentWindow | TeslaAD_news/src/pipeline.py:178-206 | the result is the 24 h window widened first by the 48 h items not marked "low", then by every such focused item within 48 h; it holds only focused items within 48 h; the 24 h window comes first and stays; it is returned unchanged when it already has 12 items, and otherwise the result has at most 12 |
| Pipeline.BackfillCandidatesSpec | TeslaAD_news/src/pipeline.py:218-227 | the candidates are exactly the focused items within 48 h whose url the suppressed list does not use, each once per occurrence, sorted by descending (score, time) with ties in focused order |
| Pipeline.BackfillOrdered | TeslaAD_news/src/pipeline.py:228-241 | backfill appends in the order of its candidates: the appended part is sorted whenever the candidates are |
| Pipeline.BackfilledSpec | TeslaAD_news/src/pipeline.py:217-241 | the suppressed list stays in front and is kept as is when it has 12 items; otherwise the result has at most 12; every appended item is an unused focused item within 48 h, dissimilar to every item before it, and the appended items come in descending (score, time) order |
| Pipeline.SuppressAndBackfill | TeslaAD_news/src/pipeline.py:216-241 | the result is the near-duplicate suppression of the window followed by its backfill, as `BackfilledSpec` describes; every result item was in the window or is a focused item within 48 h |
| Pipeline.FocusItems | TeslaAD_news/src/pipeline.py:172-175 | the focused items are the deduplicated, autonomy-related collected items whose url is not marked "low" |
| Pipeline.RankAndCut | TeslaAD_news/src/pipeline.py:242-244 | at most 12 items, all from the input, non-increasing in (score, time): the first 12 of the stable descending sort |
| Pipeline.TopOfSort | TeslaAD_news/src/pipeline.py:242-244 | the first 12 of a stable sort by a total preorder: as many as the list has up to 12, none more often than in the list, in order, and among equal keys the first ones of the list in list order |
| Pipeline.SelectedSpec | TeslaAD_news/src/pipeline.py:216-244 | the published items are as many as the backfilled list has, up to 12, taken from it, in descending (score, time) order, with items of equal keys in their list order (the sort is stable) |
| Pipeline.SelectedNonEmpty | TeslaAD_news/src/pipeline.py:172-244 | whenever some focused item is within 48 h, at least one item is published |
| Pipeline.Select | TeslaAD_news/src/pipeline.py:172-244 | the result is the selection specification `Selected`: the first 12 of the stable descending (score, time) sort of the suppressed and backfilled window; every published item is a collected, autonomy-related item not marked "low" and no older than 48 h; there are at most 12, ordered by (score, time) descending |
| Highlights.SplitSentences | TeslaAD_news/src/pipeline.py:22 | splitting on the sentence separators yields at least one piece and no piece contains a newline or a dash |
| Highlights.Cut | TeslaAD_news/src/pipeline.py:102 | a cut highlight is at most 160 characters and a prefix of the segment |
| Highlights.FirstPassSpec | TeslaAD_news/src/pipeline.py:96-104 | the first loop adds only cuts of new candidate segments of length ≥ 4 and stops at `max_points` |
| Highlights.PhrasePassSpec | TeslaAD_news/src/pipeline.py:109-114 | the inner phrase loop adds only cuts of stripped phrases of length ≥ 6 |
| Highlights.ExtrasPassSpec | TeslaAD_news/src/pipeline.py:107-114 | every extra is the cut of a stripped phrase of length ≥ 6 of some candidate |
| Highlights.WithExtrasSpec | TeslaAD_news/src/pipeline.py:96-118 | every highlight of the first two loops is a segment cut or a phrase cut |
| Highlights.FinishSpec | TeslaAD_news/src/pipeline.py:120-123 | the placeholder step and the final slice leave between 1 and `max_points` entries and add nothing but the placeholder, last |
| Highlights.HighlightsOfSpec | TeslaAD_news/src/pipeline.py:93-123 | for any candidate list the result has between 1 and `max_points` entries, each a segment cut, a phrase cut, or the final placeholder |
| Highlights.HighlightsSpec | TeslaAD_news/src/pipeline.py:83-123 | empty text gives []; otherwise between 1 and `max_points` entries of at most 160 characters, each a cut of a segment (≥ 4) or a phrase (≥ 6), the last possibly the fixed placeholder |
| Highlights.HighlightsNonEmpty | TeslaAD_news/src/pipeline.py:83-123 | non-empty text with `max_points` ≥ 1 always yields a highlight |
| Highlights.FirstLoop | TeslaAD_news/src/pipeline.py:96-104 | the first loop with its `seen` set computes the first-pass specification |
| Highlights.PhraseLoop | TeslaAD_news/src/pipeline.py:109-114 | the inner loop computes the phrase-pass specification |
| Highlights.ExtrasLoop | TeslaAD_news/src/pipeline.py:107-114 | the nested loop computes the extras specification |
| Highlights.TakeExtras | TeslaAD_news/src/pipeline.py:115-118 | the extras are appended while the list is short: the result is the list plus the first `max_points − len` extras |
| Highlights.BuildHighlights | TeslaAD_news/src/pipeline.py:83-123 | the three loops compute `build_highlights` as specified |
| Highlights.FallbackImageSpec | TeslaAD_news/src/pipeline.py:150-153 | the keywords are the first four words of the title joined by spaces, and the URL starts with the image-search base and is non-empty |
| Highlights.FirstWords | TeslaAD_news/src/pipeline.py:151 | each of the first words is non-empty and contains no whitespace |
| Highlights.Enriched | TeslaAD_news/src/pipeline.py:270-280 | enrichment keeps source, title, summary, url, time and language and replaces only the image and highlights |
| Highlights.EnrichedImageSpec | TeslaAD_news/src/pipeline.py:266 | the image is the cache's, else the item's own, else the fallback, and is never empty |
| Highlights.EnrichedHighlightsSpec | TeslaAD_news/src/pipeline.py:268 | the highlights are the cache's when non-empty, else the item's own, else built from the summary, so they are non-empty when the summary is |
| Highlights.EnrichItems | TeslaAD_news/src/pipeline.py:261-282 | each item is enriched with what the resolver returns for its url, in order |
| ArticleCache.RequestsBounded | TeslaAD_news/src/image_cache.py:73-96 | above depth 2 no request is made and the result is empty; otherwise between 1 and `3 − depth` requests are made, the first for the URL itself |
| ArticleCache.FetchArticleDataSpec | TeslaAD_news/src/image_cache.py:73-102 | a failed request gives no image and no highlights; a page with an image and two highlights, or whose target is itself, gives its own data; its image is always kept and its highlights are replaced only by strictly more |
| ArticleCache.FetchFollowsTarget | TeslaAD_news/src/image_cache.py:90-98 | a page without an image that names an image-bearing article is completed from that article after exactly two requests |
| ArticleCache.LooksLikeImageSpec | TeslaAD_news/src/image_cache.py:163-166 | a URL looks like an image iff it starts with "http" and, ignoring ASCII case, its part before the first `?` ends with one of the five extensions |
| ArticleCache.LoadedSpec | TeslaAD_news/src/image_cache.py:24-34 | the file is read only on the first call; an unreadable file leaves an empty cache; loading never touches the dirty flag or the file |
| ArticleCache.PersistedSpec | TeslaAD_news/src/image_cache.py:37-49 | the cache is written exactly when dirty and is clean afterwards; a second call does nothing; a fresh process reading the written file gets the same table |
| ArticleCache.ResolvedSpec | TeslaAD_news/src/image_cache.py:52-66 | a stored entry is returned with no fetch and no change; a legacy image string becomes an entry with that image and no highlights and marks the cache dirty; a miss fetches the URL once, stores the result and marks the cache dirty; other entries and the file are untouched |
| ArticleCache.ResolvedAgainIsHit | TeslaAD_news/src/image_cache.py:52-66 | resolving the same URL twice fetches at most once: the second call returns the same data and changes nothing |
| ArticleCache.Cache.constructor | TeslaAD_news/src/image_cache.py:18-20 | the process starts with an empty, clean, unloaded cache |
| ArticleCache.Cache.Load | TeslaAD_news/src/image_cache.py:24-34 | the globals after the call are those of the load specification |
| ArticleCache.Cache.Persist | TeslaAD_news/src/image_cache.py:45-49 | the globals after the call are those of the persist specification |
| ArticleCache.Cache.Resolve | TeslaAD_news/src/image_cache.py:52-66 | the new globals and the returned data are those of the resolve specification |
| ArticleCache.Cache.ResolveImage | TeslaAD_news/src/image_cache.py:69-70 | the image is that of the resolved data, with the same change to the globals |
| NewsText.CleanTextIsNormalized | TeslaAD_news/src/utils.py:18-23 | cleaned text is the unescaped text's words joined by single spaces, with no whitespace before or after; empty input gives "" |
| NewsText.CutSpec | TeslaAD_news/src/utils.py:28-30 | text within the limit is kept whole; longer text becomes a right-stripped prefix of the text followed by the suffix, at most `limit − 1` characters before it |
| NewsText.CutTextSpec | TeslaAD_news/src/utils.py:26-30 | with the three-character suffix as written, a cut text ends with it, starts with a prefix of the text, and is at most `limit + 2` long |
| NewsText.SummariseTextSpec | TeslaAD_news/src/utils.py:26-30 | summarising keeps cleaned text within the limit and otherwise cuts it as above |
| NewsText.ContainsAnySpec | TeslaAD_news/src/utils.py:61-63 | no keywords match nothing; the match ignores ASCII case in the text; it holds iff some lower-cased keyword occurs in the lower-cased text |
| NewsText.ContainsAnyWithin | TeslaAD_news/src/utils.py:61-71 | a keyword found in the title or the summary is found in `title + " " + summary` |
| NewsText.AdasMatchesAnyCase | TeslaAD_news/src/utils.py:70-71 | "ADAS" in the keyword list matches "adas" in the text |
| NewsText.ReFold | TeslaAD_news/src/utils.py:74 | a character matches an ASCII letter of the pattern only as that letter, its capital, `İ` or `ı` for `i`, `ſ` for `s`, or the Kelvin sign for `k`, as the case-insensitive regex compares them |
| NewsText.UnicodeFoldsMatch | TeslaAD_news/src/utils.py:74 | `<İMG`, `<ımg`, `ſrc="` and `SRC="` match the pattern's literals, and a different letter does not |
| NewsText.SrcAt | TeslaAD_news/src/utils.py:74 | the captured `src` value is non-empty and holds no quote |
| NewsText.MatchFrom | TeslaAD_news/src/utils.py:74 | with `<img` at a position, the greedy `[^>]+` takes the last `src="…"` before the next `>`; none means no match starts there |
| NewsText.SearchFrom | TeslaAD_news/src/utils.py:80 | the search returns the leftmost start at which the pattern matches, or none when no start matches |
| NewsText.ExtractImageUrlSpec | TeslaAD_news/src/utils.py:77-83 | the result is absent iff the pattern matches nowhere; otherwise it is the captured value at the leftmost match, non-empty and quote-free |
| NewsText.SearchFromStart | TeslaAD_news/src/utils.py:80 | when the pattern matches at the first position and no later `src="` of that tag completes a match, the search returns that position and that `src="` |
| NewsText.DottedCapitalImgMatches | TeslaAD_news/src/utils.py:77-83 | `<İMG src="a.png">` yields "a.png" |
| MarkdownPosts.SplitLines | TeslaAD_news/src/sources/x.py:63 | no line of `splitlines()` contains a line boundary |
| MarkdownPosts.SplitLinesJoin | TeslaAD_news/src/sources/x.py:63 | lines without boundaries joined by "\n" split back into the same lines when the last one is non-empty |
| MarkdownPosts.SplitLinesCrLf | TeslaAD_news/src/sources/x.py:63 | "\r\n" is one line boundary, not two |
| MarkdownPosts.GroupsSpec | TeslaAD_news/src/sources/x.py:63-86 | no group of lines is empty, and the groups read in order are exactly the stripped, non-empty, not-dropped lines in input order |
| MarkdownPosts.BlankLineSeparates | TeslaAD_news/src/sources/x.py:65-68 | a blank line closes the open post: the lines before and after it are grouped independently |
| MarkdownPosts.CleanSpec | TeslaAD_news/src/sources/x.py:88-96 | the cleaned posts are non-empty and whitespace-normal, pairwise distinct, in input order, and a text is among them iff it is the non-empty normal form of some post |
| MarkdownPosts.CleanedIsClean | TeslaAD_news/src/sources/x.py:88-96 | the loop with its `seen` set keeps exactly the first occurrence of each non-empty normal form |
| MarkdownPosts.GroupLines | TeslaAD_news/src/sources/x.py:61-86 | the first loop returns each group of kept lines joined by single spaces, the open group flushed at the end |
| MarkdownPosts.CleanPosts | TeslaAD_news/src/sources/x.py:88-96 | the second loop computes the cleaning as specified |
| MarkdownPosts.ParseMarkdown | TeslaAD_news/src/sources/x.py:60-96 | the parser returns the cleaned posts of the grouped lines of the markdown |
| MarkdownPosts.HeaderLinesDropped | Tesla_news/fetch_news.py:343-344 | the "Title:", "URL Source:" and "Markdown Content:" header lines are dropped by both parsers |
| MarkdownPosts.GifFilters | TeslaAD_news/src/sources/x.py:81-82 | the X parser drops "gif" in any case while the older parser drops only "GIF" and "Video" as written |
| MarkdownPosts.ImageLinkFilters | Tesla_news/fetch_news.py:347-348 | a line opening an image link is dropped by the X parser even without a link target, but kept by the older parser, which also needs "](" |
| MarkdownPosts.BulletFilters | Tesla_news/fetch_news.py:355-356 | a "* " bullet line is dropped by the older parser only |
| XSource.QualifyingSpec | TeslaAD_news/src/sources/x.py:34-39 | every published text is a cleaned snippet about autonomy and not about the stock, every such snippet is published, and there are no more than snippets |
| XSource.XSnippetsSpec | TeslaAD_news/src/sources/x.py:31-57 | at most `max(1, limit)` items, all qualifying snippets when fewer; the k-th is stamped k × 5 minutes before now, titled "X : " plus the 80-character cut, from "X (Nitter)" with the default image |
| XSource.FetchXSnippets | TeslaAD_news/src/sources/x.py:31-57 | the loop with its decreasing timestamp and `break` builds the specified items |
| XSource.StopsAtCap | TeslaAD_news/src/sources/x.py:54-55 | when the loop stops at the cap or at the end of the snippets, what it built is the specified result |
| XSource.XSnippetsFromPage | TeslaAD_news/src/sources/x.py:30-57 | after the page is fetched, the items are built from the X parser's posts |
| XSource.CleanedAreNormal | TeslaAD_news/src/sources/x.py:35 | with `clean_text` as the cleaner every published text is whitespace-normal |
| NaverTime.Shift | TeslaAD_news/src/sources/naver.py:90-107 | `now − delta` when that stays in the datetime range, otherwise `now` (the `OverflowError` is caught) |
| NaverTime.EmptyIsNow | TeslaAD_news/src/sources/naver.py:88-89 | an empty label is published now |
| NaverTime.MinutesAgoText | TeslaAD_news/src/sources/naver.py:91-93 | "N분 전" is N minutes before now |
| NaverTime.HoursAgoText | TeslaAD_news/src/sources/naver.py:94-96 | "N시간 전" is N hours before now |
| NaverTime.DaysAgoText | TeslaAD_news/src/sources/naver.py:97-99 | "N일 전" is N days before now |
| NaverTime.BadCountIsNow | TeslaAD_news/src/sources/naver.py:91-92 | a minutes label whose count is not an integer raises inside the `try` and yields now |
| NaverTime.YesterdayText | TeslaAD_news/src/sources/naver.py:100-101 | a label with "어제" and no relative unit is one day before now |
| NaverTime.YesterdayAlone | TeslaAD_news/src/sources/naver.py:100-101 | "어제" alone is one day before now |
| NaverTime.DashDateText | TeslaAD_news/src/sources/naver.py:103 | replacing dots with dashes and stripping "- " turns "YYYY.MM.DD." into "YYYY-MM-DD" |
| NaverTime.CalendarDateText | TeslaAD_news/src/sources/naver.py:102-105 | a real date written "YYYY.MM.DD." is that day's midnight in Korea |
| NaverTime.UnmatchedIsNow | TeslaAD_news/src/sources/naver.py:102-108 | non-empty text matching no rule (no dot, or shorter than 8) is published now |
| NaverTime.InvalidDateIsNow | TeslaAD_news/src/sources/naver.py:103-108 | a dated label that is not a real calendar date raises inside the `try` and yields now |
| NaverTime.ResultInRange | TeslaAD_news/src/sources/naver.py:86-108 | the parser never fails: the result is an instant in the datetime range or the midnight of a real date |
| TeslaNews.ContainsAnyCaseless | Tesla_news/fetch_news.py:101-103 | a match is also a match ignoring case on both sides, and the two agree when every keyword is lower case; no keywords match nothing |
| TeslaNews.CapitalKeywordNeverMatches | Tesla_news/fetch_news.py:101-103 | only the text is lower-cased, so a keyword holding an ASCII capital never matches |
| TeslaNews.MixedCaseTextMatches | Tesla_news/fetch_news.py:110-111 | capitals in the text do not matter: "Tesla FSD" is about autonomy |
| TeslaNews.SummariseSpec | Tesla_news/fetch_news.py:114-118 | short text is the whitespace-normalised text; long text is a prefix of it plus the one-character ellipsis; a positive limit is never exceeded |
| TeslaNews.StrippedLabel | Tesla_news/fetch_news.py:213-216 | a non-empty, already stripped label goes straight to the label rules |
| TeslaNews.ParseNaverTimeRaises | Tesla_news/fetch_news.py:213-247 | only the date arithmetic of a relative label or of "어제" can raise; every other failure is None |
| TeslaNews.EmptyLabelIsNone | Tesla_news/fetch_news.py:214-215 | an empty label gives None |
| TeslaNews.CountRelative | Tesla_news/fetch_news.py:217-234 | a count followed by its marker is that many units before the reference |
| TeslaNews.MinutesLabel | Tesla_news/fetch_news.py:217-222 | "N분 전" is N minutes before the reference |
| TeslaNews.HoursLabel | Tesla_news/fetch_news.py:223-228 | "N시간 전" is N hours before the reference |
| TeslaNews.DaysLabel | Tesla_news/fetch_news.py:229-234 | "N일 전" is N days before the reference |
| TeslaNews.YesterdayLabel | Tesla_news/fetch_news.py:235-236 | "어제" is the day before the reference with the seconds dropped |
| TeslaNews.YesterdayPhraseIsNone | Tesla_news/fetch_news.py:235-247 | only the exact word counts: "어제 밤" is not read as a time |
| TeslaNews.DottedDateLabel | Tesla_news/fetch_news.py:238-244 | a real date written "YYYY.MM.DD." is that day's midnight in Korea |
| TeslaNews.AfternoonLabel | Tesla_news/fetch_news.py:238-244 | "YYYY.MM.DD. 오후 hh:mm" is read by the second format as that time on the 24-hour clock in Korea |
| TeslaNews.DotAmPmNotDate | Tesla_news/fetch_news.py:239-246 | a date followed by a clock fails the first format, so the second one is tried |
| TeslaNews.Key | Tesla_news/fetch_news.py:253 | the identity is the url when non-empty, else the title |
| TeslaNews.Deduplicate | Tesla_news/fetch_news.py:250-256 | the ordered-dict loop keeps the first item of each non-empty key, in input order |
| TeslaNews.DeduplicatedSpec | Tesla_news/fetch_news.py:250-256 | the kept items are input items with a non-empty key, at most one per key, in input order, and every non-empty input key is kept |
| TeslaNews.PrioritizeAutonomy | Tesla_news/fetch_news.py:259-270 | the loop and the list comprehension compute the non-stock items, autonomy items first, each group in input order |
| TeslaNews.PrioritizedSpec | Tesla_news/fetch_news.py:259-270 | the result is a permutation of the non-stock items, holds no stock item, and no autonomy item follows one that is not |
| TeslaNews.EnsureNaverPresence | Tesla_news/fetch_news.py:273-287 | the loop returns the list unchanged when some source mentions Naver or no candidate qualifies, else appends the first qualifying candidate after dropping the last item of a full list |
| TeslaNews.WithNaverSpec | Tesla_news/fetch_news.py:273-287 | the list is kept or its tail replaced by one qualifying candidate; a list of at most 10 stays so; with Naver candidates of which one qualifies, the result has a Naver item |
| TeslaNews.FilterRecentSpec | Tesla_news/fetch_news.py:385-401 | an item is kept iff its time is at or after `now − hours`, the boundary included; an unparseable date counts as now and is kept for any non-negative window |
| TeslaNews.AttemptSpec | Tesla_news/fetch_news.py:502-512 | every pass returns at most 10 items and none whose key is excluded |
| TeslaNews.WidenSpec | Tesla_news/fetch_news.py:501-527 | the loop stops at a window between its start and the cap, with at least the minimum number of items unless the cap was reached; the result is that window's pass |
| TeslaNews.WidenWindow | Tesla_news/fetch_news.py:489-527 | the `while True` loop, widening by 12 hours from `max(1, initial)` to `max(start, max_hours)`, computes the widening specification |
| TeslaNews.SelectNews | Tesla_news/fetch_news.py:486-527 | the published list has at most 10 items, none with a non-empty excluded key, and is the widening applied to the deduplicated, newest-first, autonomy-first items |
| ReviewApp.ExcludeItems | Tesla_news/streamlit_app.py:23-32 | the kept items are the input items whose non-empty key is not excluded, in order; the count removed is the number of excluded items, and the two add up to the input length |
| ReviewApp.ExcludeLoop | Tesla_news/streamlit_app.py:25-31 | the loop with its counter computes the kept items and the number of excluded ones |
| ReviewApp.ExcludeItemsMembers | Tesla_news/streamlit_app.py:27-31 | an item survives iff it was an input item whose key is empty or not excluded |
| ReviewApp.ExtractLowRelevanceKeys | Tesla_news/streamlit_app.py:91-99 | the keys are exactly the non-empty `url or title` of the entries rated "low" |
| ReviewApp.LowRelevanceItemDropped | Tesla_news/streamlit_app.py:91-99 | an item with the key of an entry rated "low" is dropped by the next collection's filter |
| ReviewApp.Session.ResetRatingState | Tesla_news/streamlit_app.py:102-109 | exactly the `rating_value_`, `reason_` and `radio_` keys are deleted; every other key keeps its value |
| ReviewApp.CollectEvaluationEntries | Tesla_news/streamlit_app.py:196-218 | the loop returns the entries and the missing-reason titles of the specification |
| ReviewApp.EntriesSpec | Tesla_news/streamlit_app.py:201-217 | one entry per rated item and no more; each records a non-empty rating, the same timestamp, and a reason only when rated "low" |
| ReviewApp.MissingReasonsSpec | Tesla_news/streamlit_app.py:205-207 | a warning names exactly each item rated "low" with a blank reason, by title or "항목 N" |
| ReviewApp.MissingReasonsFewer | Tesla_news/streamlit_app.py:201-217 | there are never more missing-reason warnings than entries |
| ReviewApp.ClearedCollectsNothing | Tesla_news/streamlit_app.py:102-109 | after the ratings are reset, saving collects no entry and no warning |
| ReviewApp.PutSpec | Tesla_news/streamlit_app.py:226 | a dict assignment keeps keys distinct, maps the key to the new entry and leaves every other key's entry |
| ReviewApp.AssignLookup | Tesla_news/streamlit_app.py:222-226 | after the loop a key maps to the last new entry with that key, else to its existing entry |
| ReviewApp.MergeEvaluations | Tesla_news/streamlit_app.py:221-227 | the result is the stable newest-first sort of the merged dictionary's values |
| ReviewApp.MergeSpec | Tesla_news/streamlit_app.py:221-227 | the merged list is sorted newest first, has one entry per key, holds the last new entry of each key and every existing entry not overridden, and nothing else |
| ReviewApp.FormatTimestampSpec | Tesla_news/streamlit_app.py:112-123 | a missing or empty value gives "-", a non-ISO value is returned as is, and an ISO time gives "YYYY-MM-DD HH:MM KST" of its Korean wall time |
| CarParser.DisplayLabelDetermines | car_picker/app/parser.py:25-28 | when make and model hold no space, equal labels mean equal make, model and year |
| CarParser.LabelSplits | car_picker/app/parser.py:25-28 | the label splits at its spaces back into make, model and year |
| CarParser.IsFullViewDimensions | car_picker/app/parser.py:30-43 | without a stored ratio, a full view is landscape, at least 640 by 360, with width/height between 1.2 and 1.9 stated on integers |
| CarParser.RFind | car_picker/app/parser.py:53 | the index found holds the character; none means it does not occur |
| CarParser.StrippedNonEmpty | car_picker/app/parser.py:54 | no kept piece is empty and there are no more pieces than before |
| CarParser.ParseFilename | car_picker/app/parser.py:50-76 | an error names the stem; a result has the stem as id and the path as path |
| CarParser.ParseFilenameCases | car_picker/app/parser.py:53-76 | fewer than four pieces iff "missing required tokens"; a non-integer third piece iff "year parse failed"; otherwise make, model, year and attributes are the pieces in order |
| CarParser.ParseFileName | car_picker/app/parser.py:50-76 | parsing the file name written from a make, model, year and attributes gives them back |
| CarParser.StemOfFileName | car_picker/app/parser.py:53 | the stem of `dir/stem.ext` is `stem` |
| CarParser.IterCarMeta | car_picker/app/parser.py:79-86 | no more cars than paths |
| CarParser.IterCarMetaMembers | car_picker/app/parser.py:79-86 | every car yielded comes from a path that parses, and every path that parses yields its car |
| CarParser.IterCarMetaAppend | car_picker/app/parser.py:79-86 | the cars of concatenated path lists are the concatenation of their cars, so the order is kept |
| CarParser.IterCarMetaSingle | car_picker/app/parser.py:82-86 | a parseable path yields its car; an unparseable one is skipped |
| GameState.Session.constructor | car_picker/app/game_state.py:20-28 | a new session has no questions, index and score 0, no history and no pending result |
| GameState.Session.Reset | car_picker/app/game_state.py:30-36 | every field is back to its default |
| GameState.Session.ExtendQuestions | car_picker/app/streamlit_app.py:172 | the round's questions are appended and nothing else changes |
| GameState.Session.CurrentQuestion | car_picker/app/game_state.py:38-41 | a question is returned iff the index is inside the list, and it is the one at the index |
| GameState.Session.RecordAnswer | car_picker/app/game_state.py:43-55 | without a current question nothing changes; otherwise the answer becomes the pending result and a right answer adds exactly one point; the questions, index and history are untouched |
| GameState.Session.Advance | car_picker/app/game_state.py:57-62 | a pending result moves to the end of the history and is cleared; the index always moves on by one; the score is untouched |
| QuestionBank.CorrectIndex | car_picker/app/question_bank.py:21-26 | the index is that of the first choice carrying the answer's id; the error is raised exactly when no choice carries it |
| QuestionBank.Shuffle | car_picker/app/question_bank.py:58 | `random.shuffle` yields a reordering: the same multiset of elements |
| QuestionBank.ShuffleKeepsDistinct | car_picker/app/question_bank.py:132 | shuffling keeps the choice labels distinct |
| QuestionBank.ExtendWithPool | car_picker/app/question_bank.py:136-162 | at most `quota` cars are added (none for a non-positive quota), each from the pool with an unused id and label and all labels distinct; the used sets grow by exactly theirs; when fewer than `quota` were added, every pool car is used by id or label |
| QuestionBank.TakeFresh | car_picker/app/question_bank.py:152-162 | the loop takes candidates in order with an unused label until the quota is reached; when it falls short, every candidate's label is used |
| QuestionBank.AllCandidatesSeen | car_picker/app/question_bank.py:149-150 | once every shuffled unused-id candidate has a used label, every car of the pool is used by id or label |
| QuestionBank.LimitYearVariation | car_picker/app/question_bank.py:164-183 | at most one car is returned, of a year other than the answer's; none exactly when every car has the answer's year |
| QuestionBank.GroupMembers | car_picker/app/question_bank.py:48-50 | every car is in the group of its key and a group holds only input cars of its key |
| QuestionBank.GroupIsFilter | car_picker/app/question_bank.py:48-50 | each group is the input filtered by its key, so it keeps the input order |
| QuestionBank.NewGenerator | car_picker/app/question_bank.py:32-50 | fewer than 10 inputs, or fewer than 10 distinct labels, is the matching error; otherwise the cars are the first car of each label in input order, grouped by make and by make and model |
| QuestionBank.GroupCars | car_picker/app/question_bank.py:48-50 | the `setdefault(...).append` loop builds exactly the two groupings |
| QuestionBank.GeneratorCars | car_picker/app/question_bank.py:37-40 | the generator's cars have distinct labels, cover every input label and keep the input order |
| QuestionBank.QuestionCorrectIndex | car_picker/app/question_bank.py:21-26 | in a well-formed question `correct_index` succeeds and points at the answer |
| QuestionBank.QuestionDistinctIds | car_picker/app/question_bank.py:86-134 | when ids determine labels, the choices of a question have distinct ids |
| QuestionBank.DistractorPools | car_picker/app/question_bank.py:92-103 | the same-model pool has at most one car, of that model and another year; the same-make pool has cars of that make and another model; the others are the cars of other makes, in order; none is the answer |
| QuestionBank.MakeQuestion | car_picker/app/question_bank.py:86-134 | fewer than 2 choices is an error; a question has exactly `choice_count` choices with distinct labels, among them the answer and otherwise only other cars of the set; "not enough distractors" only when the cars are used up |
| QuestionBank.SelectDistractors | car_picker/app/question_bank.py:105-128 | the distractors are fresh cars of the set, and when too few were found every car shares an id or label with the answer or a distractor |
| QuestionBank.QuotaRounds | car_picker/app/question_bank.py:109-120 | the quota loop keeps the distractors fresh and the used sets equal to the answer's plus the distractors' |
| QuestionBank.TakeQuota | car_picker/app/question_bank.py:115-118 | one round appends fresh picks and keeps the used sets in step |
| QuestionBank.ChoicesOfQuestion | car_picker/app/question_bank.py:130-134 | any reordering of the first `choice_count − 1` distractors plus the answer is a well-formed question |
| QuestionBank.Choice | car_picker/app/question_bank.py:67 | `random.choice` returns an element of the list |
| QuestionBank.SessionSnoc | car_picker/app/question_bank.py:76-77 | a question on a car whose label was not asked yet extends the session and its used labels |
| QuestionBank.MakeSessionQuestions | car_picker/app/question_bank.py:52-84 | at most three attempts per car; too few questions is the not-enough error (always when `count` exceeds the cars, or no choices are possible); otherwise exactly `count` well-formed questions on cars of the set with distinct answer labels |
| CarStore.Resolve | car_picker/app/store.py:40-42 | an absolute path is kept, the current directory names the root, and any other relative path goes below the root |
| CarStore.ResolveAbsolute | car_picker/app/store.py:40-49 | with an absolute root every resolved path is absolute and resolving again changes nothing |
| CarStore.ResolveRelative | car_picker/app/store.py:41-42 | a relative path resolves to the root, a separator and the path itself |
| CarStore.ResolveThumb | car_picker/app/store.py:44-49 | a missing or empty thumbnail gives none; any other is resolved like the image path |
| CarStore.YearOf | car_picker/app/store.py:57 | `int(...)` keeps a number and reads a string as a decimal integer |
| CarStore.YearTextRoundTrip | car_picker/app/store.py:57 | a year written in decimal reads back as itself |
| CarStore.CarOf | car_picker/app/store.py:39-64 | an item becomes a car iff its year is an integer |
| CarStore.CarOfSpec | car_picker/app/store.py:39-64 | a car keeps the item's id, make, model, attributes, dimensions and integer year; with an absolute root its paths are absolute, and it has a thumbnail iff the item names a non-empty one |
| CarStore.LoadCars | car_picker/app/store.py:38-64 | every item becomes its car in order, or the load fails at the first item whose year is not an integer |
| CarStore.QuizCarsSpec | car_picker/app/store.py:66-69 | the quiz cars are the loaded cars in order with some left out; when any is left out, exactly the full-view ones remain and there are at least ten; all full-view keeps all |
| CarStore.YearsOf | car_picker/app/store.py:78 | the years convert iff each one is an integer, and then each converted year is its value |
| CarStore.CatalogOf | car_picker/app/store.py:71-81 | a missing section is empty; makes and models are copied; every year list is converted; a non-integer year fails the load |
| CarStore.LoadIndex | car_picker/app/store.py:32-83 | the load succeeds iff every item year and every catalog year is an integer, an item failure coming first; then the cars are the quiz cars of the loaded items and the catalog is the converted one |
| BuildIndex.SortedSet | car_picker/scripts/build_index.py:39 | `sorted` of a set lists each element once, in strictly ascending order |
| BuildIndex.KeyOfInjective | car_picker/scripts/build_index.py:45 | when makes hold no `|`, the key `make|model` names the make and the model |
| BuildIndex.BuildCatalog | car_picker/scripts/build_index.py:40-45 | the loop over the cars fills the model and year sets of the catalog specification |
| BuildIndex.CatalogMakes | car_picker/scripts/build_index.py:39-49 | `makes` lists each make of the input once in ascending order, and `models` has exactly those makes as keys |
| BuildIndex.CatalogModels | car_picker/scripts/build_index.py:44-49 | each make's list holds each of its models once, in ascending order, and nothing else |
| BuildIndex.CatalogYears | car_picker/scripts/build_index.py:45-52 | there is a key for each make and model of the input, listing each year of such a car once in ascending order, and nothing else |
| BuildIndex.ToRelative | car_picker/scripts/build_index.py:125-129 | the result is the path itself, ".", or the rest of a path below the root |
| BuildIndex.ToRelativeRoundTrip | car_picker/scripts/build_index.py:125-129 | resolving the written path against the root, as the loader does, gives back the absolute path |
| BuildIndex.Numbers | car_picker/scripts/build_index.py:50-52 | the years are written as JSON numbers, one per year, in order |
| BuildIndex.Payload | car_picker/scripts/build_index.py:91-117 | no parsable image is the "no parsable images" error, and only that |
| BuildIndex.PayloadRoundTrip | car_picker/scripts/build_index.py:97-117 | loading the written index gives back every car, with the thumbnail under the root, and the same catalog |
| BuildIndex.ItemRoundTrip | car_picker/scripts/build_index.py:101-114 | one written item loads back as its car with the thumbnail path resolved |
| BuildIndex.CatalogRoundTrip | car_picker/scripts/build_index.py:47-53 | the written catalog loads back unchanged |
| Payments.LeftSumIsRightSum | K-shoppingmall/payments/gateway.py:59-70 | doubling the digits whose index has the parity of the length, counted from the left, is the Luhn rule of doubling every second digit counted from the check digit |
| Payments.DigitValues | K-shoppingmall/payments/gateway.py:60 | one value below 10 per character, the digit's own value on a string of digits |
| Payments.LuhnCheck | K-shoppingmall/payments/gateway.py:59-70 | the checksum loop accepts a digit string exactly when it satisfies the Luhn formula |
| Payments.CheckDigit | K-shoppingmall/payments/gateway.py:59-70 | the check digit that completes a payload is a single digit |
| Payments.CheckDigitUnique | K-shoppingmall/payments/gateway.py:59-70 | exactly one digit appended to a payload gives a number the check accepts |
| Payments.SingleDigitErrorDetected | K-shoppingmall/payments/gateway.py:59-70 | changing any one digit of an accepted number makes the check reject it |
| Payments.DigitsOf | K-shoppingmall/payments/gateway.py:50 | filtering the card number field leaves only digits |
| Payments.SeparatorIgnored | K-shoppingmall/payments/gateway.py:50 | a space, dash or other non-digit in the card number field does not change the number checked |
| Payments.ValidateCardPayloadSpec | K-shoppingmall/payments/gateway.py:49-57 | the payload is valid exactly when the number has at least 13 digits and passes Luhn and the expiry month, year and CVC are present; the card-number message is given exactly when the number fails, the expiry message only when a part of the expiry is missing, the CVC message only when the CVC alone is missing |
| Payments.TokenHex | K-shoppingmall/payments/gateway.py:46 | the random token has two hex characters per byte |
| Payments.HexRoundTrip | K-shoppingmall/payments/gateway.py:46-47 | the upper-cased token reads back as the random bytes drawn |
| Payments.TransactionIdSpec | K-shoppingmall/payments/gateway.py:45-47 | the id is the prefix, a dash and ten hex characters that read back as the five random bytes; the prefix is the configured `success_prefix`, else the method's first two letters in upper case |
| Payments.ShopPrefixes | K-shoppingmall/kshoppingmall/settings.py:150-159 | with the shop's settings, card ids start with `MC` and Naver Pay ids with `NP` |
| Payments.ProcessSpec | K-shoppingmall/payments/gateway.py:14-43 | an unknown or missing method fails with the unsupported-method message; a card is approved exactly when its payload is valid and otherwise fails with the validation message; Naver Pay is always approved; an approval records the lower-cased method, the order total and the transaction id |
| Payments.MethodCaseIgnored | K-shoppingmall/payments/gateway.py:15-17 | `NaverPay` is accepted as Naver Pay, while `paypal` and a missing method are refused |
| Slugs.CandidateInjective | K-shoppingmall/catalog/signals.py:16-20 | two different counters never produce the same candidate slug |
| Slugs.OtherSlugs | K-shoppingmall/catalog/signals.py:18 | the taken slugs are exactly those of the stored products other than this one |
| Slugs.FreeSlug | K-shoppingmall/catalog/signals.py:16-20 | the loop stops at a candidate no other product uses, every earlier candidate is taken, and it runs at most once per taken slug |
| Slugs.Product.constructor | K-shoppingmall/catalog/models.py:24-28 | a product holds the key, name, slug and price it is built with |
| Slugs.Product.AssignInitialPrice | K-shoppingmall/catalog/models.py:40-42 | a price of 0 becomes a multiple of 1000 between 10000 and 100000; a set price is kept; nothing else changes |
| Slugs.Product.EnsureSlug | K-shoppingmall/catalog/signals.py:12-23 | a set slug is kept; a missing one becomes the first free candidate built on the slugified name, or on an eight-digit hex token when that is empty; the price is then assigned when it is 0 |
| Timer.Round | timer/timer.js:256 | `Math.round` gives the integer within half a minute of the offset, halves rounding up |
| Timer.Pad2 | timer/timer.js:259-260 | padding gives at least two characters, all digits |
| Timer.FormatOffsetLabel | timer/timer.js:255-262 | the label starts with `GMT`, has at least nine characters, and carries `+` for a rounded offset of zero or more and `-` otherwise |
| Timer.LeadingZero | timer/timer.js:259-260 | a leading `0` added by the padding does not change the number's value |
| Timer.Pad2Value | timer/timer.js:259-260 | the padded text reads back as the number padded |
| Timer.Pad2Minutes | timer/timer.js:260 | the minutes field is exactly two digits |
| Timer.FormatOffsetLabelSpec | timer/timer.js:255-262 | the label ends in `:` and two digits holding the minutes below 60, its hours field holds the whole hours of the absolute offset, and reading the label back gives the rounded offset with its sign |
| Timer.OffsetLabelExamples | timer/timer.js:255-262 | an offset of 540 minutes reads `GMT+09:00` and one of -210 minutes reads `GMT-03:30` |
| Timer.GetCity | timer/timer.js:171-173 | a found city is in the table and has the id; nothing is found exactly when no city has it |
| Timer.GetCityFirst | timer/timer.js:171-173 | the city found is the first in the table with the id |
| Timer.GetCityName | timer/timer.js:175-177 | the locale's name when it is present and not empty, else the English name, else none |
| Timer.CityNamesComplete | timer/timer.js:15-19 | every city of the table has a non-empty name in every language of the toggle |
| Timer.Clock.constructor | timer/timer.js:164-200 | the page starts in Korean on Seoul with no active marker, and with one inactive marker per city in table order, titled with its Korean name |
| Timer.Clock.SelectCity | timer/timer.js:202-219 | an unknown id changes nothing; a known id becomes the current city, its marker becomes the only active and `aria-selected` one, and it becomes the list's active descendant |
| Timer.Clock.ToggleLanguage | timer/timer.js:378-382 | a press moves to the next language of the toggle, cyclically, and changes nothing else |
| Timer.ToggleCycle | timer/timer.js:15-19 | three presses of the toggle bring the page back to the language it had |
| Timer.Clock.UpdateCityDayStates | timer/timer.js:336-357 | each marker's night flag follows its city's local hour and its title becomes the city's name in the current language; nothing else changes |
| StableSort.SortPermutation | TeslaAD_news/src/pipeline.py:242 | sorting neither loses, adds nor repeats an item |
| StableSort.SortSorted | TeslaAD_news/src/pipeline.py:242 | under a total, transitive ordering the result is in order |
| StableSort.SortStable | TeslaAD_news/src/pipeline.py:242 | items that tie on the key keep their original relative order, as Python's sort promises |
| StableSort.DescendingByPreorder | Tesla_news/fetch_news.py:487 | `key=k, reverse=True` on one key is a total, transitive ordering |
| StableSort.DescendingByPairPreorder | TeslaAD_news/src/pipeline.py:224-227 | `reverse=True` on a (score, time) key compares by score, then by time, and is a total, transitive ordering |
| Strptime.Hour24 | Tesla_news/fetch_news.py:239-241 | `%p %I` gives an hour below 24: the 12-hour value modulo 12, plus 12 after noon |
| Strptime.DashYmdText | TeslaAD_news/src/sources/naver.py:102-103 | a date written `YYYY-MM-DD` is read back as that date |
| Strptime.DashYmdRejectsTrailing | TeslaAD_news/src/sources/naver.py:103 | a date followed by an extra digit is refused, as `strptime` refuses unconverted data |
| Strptime.DotYmdText | Tesla_news/fetch_news.py:238-241 | a date written `YYYY.MM.DD.` is read back as that date |
| Strptime.DotAmPmTextParses | Tesla_news/fetch_news.py:237-241 | a time written `YYYY.MM.DD. AM hh:mm` or with `PM` is read back as that date and its 24-hour time |

## Left out

- File and JSON persistence: loading and saving the feedback file, `write_news`, the article cache file and the decoding of `index.json`. Each store is the in-memory state those functions share.
- Network access: `fetch_google_news`, `fetch_naver_news`, the HTTP request of `fetch_x_snippets`, the request inside `_fetch_article_data` and `translate_to_korean`. Feeds arrive as lists and the article page is a function parameter.
- HTML and XML extraction with BeautifulSoup or ElementTree (`_extract_image`, `_extract_target_url`, `_extract_highlights`, the Naver and Google field scraping). These are library behaviour; the article cache takes their result as a parameter.
- User interfaces: Streamlit rendering, the Flask app and its scheduler, and the DOM, animation, ticker and `renderClock` code of the world clock. `GameState.Session.ExtendQuestions` keeps only the state change the quiz page makes.
- `getOffsetMinutes` and `updateMapLighting` of the world clock: they depend on the `Intl` API and floating-point rotation. The offset and each city's local hour are parameters.
- Library functions become parameters or nondeterministic choices: `difflib.SequenceMatcher` similarity, `html.unescape`, `quote` and `quote_plus`, `slugify`, `datetime.fromisoformat` with time-zone conversion, `secrets` and `random`.
- Instants are integer epoch seconds. `isoformat` strings are not produced, and the current time is the parameter `now`.
- Django plumbing: `process` returns the approval instead of writing the `Payment` row, and `ensure_slug` reads the other products' slugs from a map instead of a query.
- Image processing: `scan_images`, `attach_dimensions` and the thumbnail maker use PIL and the filesystem. The cars and their dimensions are inputs.
- Logging, and the warning-only branch below `MIN_ITEMS` in the selection pipeline: neither affects a result.
- Feedback weights and similarity ratios are exact reals, not floats. Every weight change is a multiple of 0.5 within [-10, 10], so the floats hold the same values.
- Feedback.TokenizeShape: lower-casing covers ASCII letters only. Python's `lower` also maps a few non-ASCII letters (the Kelvin sign, a dotted capital I) to ASCII ones, which would then join tokens.
- NewsText.ContainsAnySpec: keyword matching lower-cases ASCII letters only, not the full Unicode case mapping of Python's `lower`.
- TeslaNews.ContainsAnyCaseless: case is folded for ASCII letters only, as in every other lower-casing of the model.
- Payments.DigitsOf: keeps ASCII digits only, while `str.isdigit` also accepts other Unicode digits.
- CarStore.YearOf: `int` on a string accepts ASCII digits with an optional sign and surrounding whitespace. Python also accepts other Unicode decimal digits and underscores between digits.
- Timer.Clock.SelectCity: the city markers are a sequence in table order, one per city. The source's `Map` keyed by city id would merge duplicate ids, which the city table does not have.
- CarParser.ParseFilenameCases: the year piece is read as ASCII digits with an optional sign and surrounding whitespace. Python's `int` also accepts other Unicode decimal digits and underscores between digits, so such a piece parses there and is "year parse failed" here.
- CarParser.ParseFilename: reads the year as `CarParser.ParseFilenameCases` does, with the same ASCII-only digits.
- Strptime.DashYmdText: the `%Y`, `%m` and `%d` fields take ASCII digits only. Python's `strptime` matches them with `\d`, which also accepts other Unicode decimal digits.
- Strptime.DotYmdText: the same ASCII-only digit fields as `Strptime.DashYmdText`.
- Strptime.DotAmPmTextParses: the `%I` and `%M` fields take ASCII digits only, as in `Strptime.DashYmdText`.
- Strptime.DashYmdRejectsTrailing: shows a refusal for an extra ASCII digit only; other Unicode digits are not digits in the model.
- Dates.KstTimestamp: Korean local time is a fixed UTC+9 (`Dates.KstOffset`). `pytz.timezone("Asia/Seoul")` applies Seoul's historical offsets instead: +8:30 in some earlier years and the summer time of 1987 and 1988. Dates in those periods are off by 30 or 60 minutes.
- NaverTime.CalendarDateText: the midnight of a dated label uses the fixed UTC+9 of `Dates.KstTimestamp`.
- TeslaNews.DottedDateLabel: the midnight of a dated label uses the fixed UTC+9 of `Dates.KstTimestamp`.
- TeslaNews.AfternoonLabel: the local time of a dated label uses the fixed UTC+9 of `Dates.KstTimestamp`.
- ReviewApp.FormatTimestampSpec: the conversion to Korean time is a parameter. The model's own conversion uses the fixed UTC+9 of `Dates.KstTimestamp`.
- CarStore.Resolve: paths are text in normal form. `pathlib` also normalises "./a" to "a", "a/" to "a" and "a//b" to "a/b", and joins below a root of "/" as "/x". The model joins the raw text, so it gives "root/./a", "root/a/", "root/a//b" and "//x".
- BuildIndex.ToRelative: paths are text in normal form. `relative_to("/")` gives "a" for "/a", while the model keeps "/a", and it does not normalise "." parts or repeated separators.
- MarkdownPosts.IsCountLine: a count line is digits after removing commas and periods, and the digits are ASCII only. Python's `isdigit` also accepts other Unicode digits, such as full-width digits or superscripts, so the source drops lines like "１２３" or "²" that the model keeps.
- MarkdownPosts.GroupsSpec: the dropped lines are those of `MarkdownPosts.IsCountLine`, with its ASCII-only digits, so a line of other Unicode digits stays in a group here.
- NaverTime.Ago: the count is read with ASCII digits, an optional sign and surrounding whitespace. Python's `int` also reads other Unicode decimal digits and underscores between digits, so "１０분 전" or "1_0분 전" is ten minutes ago in the source and now in the model.
- NaverTime.BadCountIsNow: "not an integer" means not an ASCII integer in the sense of `NaverTime.Ago`.
- TeslaNews.Relative: the count is read as in `NaverTime.Ago`, so a count of other Unicode digits or with underscores gives None here where the source computes a time.
- TeslaNews.CountRelative: states the result for ASCII counts only, as `TeslaNews.Relative` reads them.
- ReviewApp.EntryKey: a saved evaluation with neither a url nor a title has the key "" here, while the map of saved evaluations at Tesla_news/streamlit_app.py:278-281 files it under None, apart from one whose url and title are both empty.
