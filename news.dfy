/**
 * The article record of the news pipeline and its configuration constants.
 * Timestamps are integer seconds; `published_at` stays the text the source
 * carries, and is read through an ISO-8601 parser given as a parameter.
 */
module News {
  import opened Wrappers

  datatype NewsItem = NewsItem(
    source: string,
    title: string,
    summary: string,
    url: string,
    publishedAt: string,
    imageUrl: Option<string>,
    language: Option<string>,
    highlights: Option<seq<string>>)

  /**
   * What the article cache knows about a page: its image, if any, and the
   * highlight sentences taken from it (a missing list is empty).
   */
  datatype ArticleData = ArticleData(image: Option<string>, highlights: seq<string>)

  /** `{"image": None, "highlights": []}`. */
  const EmptyArticle: ArticleData := ArticleData(None, [])

  /** At most this many items are published. */
  const MaxItems: nat := 12
  /** Fewer than this many only triggers a warning. */
  const MinItems: nat := 8
  const RecentHours: nat := 24
  const RecentFallbackHours: nat := 48
  /** Similarity at or above which two items count as the same story. */
  const SimilarityThreshold: real := 0.82

  const DefaultImageUrl: string := "https://upload.wikimedia.org/wikipedia/commons/e/e8/Tesla_logo.png"

  const AutonomyKeywords: seq<string> := [
    "autonomous driving", "autonomous vehicle", "autopilot", "full self-driving",
    "full self driving", "fsd", "self-driving", "self driving", "robotaxi",
    "robotaxis", "driverless", "tesla drive pilot", "자율주행", "자율 주행",
    "자율운전", "완전자율주행", "오토파일럿", "로보택시", "주행 보조", "ADAS"]

  const StockKeywords: seq<string> := [
    "stock", "stocks", "share price", "shares", "target price", "valuation",
    "earnings", "주가", "증시", "주식", "목표가", "실적", "수익", "주주"]

  /** Python truthiness of an optional string: present and non-empty. */
  predicate Present(s: Option<string>) { s.Some? && s.value != "" }

  /**
   * The item's publication instant: the parsed `published_at`, or the
   * current time when it does not parse.
   */
  function ItemTime(item: NewsItem, now: int, iso: string -> Option<int>): (t: int)
    ensures iso(item.publishedAt).None? ==> t == now
    ensures iso(item.publishedAt).Some? ==> t == iso(item.publishedAt).value
  {
    iso(item.publishedAt).GetOr(now)
  }

  /** `item.url or item.title`: the identity used for deduplication. */
  function Key(item: NewsItem): (k: string)
    ensures item.url != "" ==> k == item.url
    ensures item.url == "" ==> k == item.title
  {
    if item.url != "" then item.url else item.title
  }
}
