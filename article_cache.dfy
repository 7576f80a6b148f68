/**
 * The per-URL article cache: the image and highlight sentences of each
 * article page, read lazily from a cache file once per process, filled on a
 * miss by fetching the page, and written back only when something changed.
 * HTTP and the HTML extraction are given as a page function: for a URL it
 * returns None when the request fails, or what the extraction found.
 */
module ArticleCache {
  import opened Wrappers
  import opened Text
  import opened News

  /** A cache entry as the file holds it: an older file stores a bare image URL. */
  datatype Entry = Legacy(image: string) | Stored(data: ArticleData)

  /** The cache file: absent, present but not valid JSON, or a decoded table. */
  datatype CacheFile = Missing | Unreadable | Readable(table: map<string, Entry>)

  /**
   * What a successful request yields: the URL after redirects, the image and
   * highlights extracted from the page, and the link to the real article
   * (`og:url`, canonical link and the like) if the page names one.
   */
  datatype Page = Page(finalUrl: string, image: Option<string>, highlights: seq<string>, target: Option<string>)

  /** Deepest level at which a page is still requested. */
  const MaxDepth: nat := 2

  /**
   * `_fetch_article_data(url, depth)`: the page's own image and highlights,
   * completed from the target article when the page lacks an image or has
   * fewer than two highlights and points elsewhere.
   */
  function FetchArticleData(url: string, depth: nat, get: string -> Option<Page>): ArticleData
    decreases 3 - depth
  {
    if depth > MaxDepth then EmptyArticle
    else
      match get(url)
      case None => EmptyArticle
      case Some(p) =>
        if Present(p.image) && |p.highlights| >= 2 then ArticleData(p.image, p.highlights)
        else
          var target := if Present(p.target) then p.target.value else p.finalUrl;
          if target == p.finalUrl then ArticleData(p.image, p.highlights)
          else
            var nested := FetchArticleData(target, depth + 1, get);
            ArticleData(
              if Present(p.image) then p.image else nested.image,
              if |p.highlights| < |nested.highlights| then nested.highlights else p.highlights)
  }

  /** The URLs requested by one `_fetch_article_data(url, depth)` call, in order. */
  function Requests(url: string, depth: nat, get: string -> Option<Page>): seq<string>
    decreases 3 - depth
  {
    if depth > MaxDepth then []
    else
      match get(url)
      case None => [url]
      case Some(p) =>
        if Present(p.image) && |p.highlights| >= 2 then [url]
        else
          var target := if Present(p.target) then p.target.value else p.finalUrl;
          if target == p.finalUrl then [url] else [url] + Requests(target, depth + 1, get)
  }

  /**
   * Below the depth limit a fetch makes at most `3 - depth` requests, the
   * first for the URL itself; above it, none, and the result is empty.
   */
  lemma {:induction false} RequestsBounded(url: string, depth: nat, get: string -> Option<Page>)
    ensures depth > MaxDepth ==> Requests(url, depth, get) == [] && FetchArticleData(url, depth, get) == EmptyArticle
    ensures depth <= MaxDepth ==> 1 <= |Requests(url, depth, get)| <= 3 - depth && Requests(url, depth, get)[0] == url
    decreases 3 - depth
  {
    if depth <= MaxDepth {
      match get(url)
      case None =>
      case Some(p) =>
        var target := if Present(p.target) then p.target.value else p.finalUrl;
        if !(Present(p.image) && |p.highlights| >= 2) && target != p.finalUrl {
          RequestsBounded(target, depth + 1, get);
        }
    }
  }

  /**
   * A failed request gives the empty result. A page with an image and at
   * least two highlights, or one pointing to itself, gives its own data. The
   * page's image is kept when it has one, and its highlights are replaced
   * only by strictly more of them.
   */
  lemma FetchArticleDataSpec(url: string, depth: nat, get: string -> Option<Page>)
    requires depth <= MaxDepth
    ensures get(url).None? ==> FetchArticleData(url, depth, get) == EmptyArticle
    ensures get(url).Some? ==>
      var p := get(url).value; var r := FetchArticleData(url, depth, get);
      ((Present(p.image) && |p.highlights| >= 2) ==> r == ArticleData(p.image, p.highlights))
      && ((if Present(p.target) then p.target.value else p.finalUrl) == p.finalUrl ==>
            r == ArticleData(p.image, p.highlights))
      && (Present(p.image) ==> r.image == p.image)
      && (r.highlights == p.highlights || |r.highlights| > |p.highlights|)
  {
  }

  /** A second-level page that names an image-bearing article is completed from it. */
  lemma FetchFollowsTarget(get: string -> Option<Page>)
    requires get("g") == Some(Page("g", None, [], Some("a")))
    requires get("a") == Some(Page("a", Some("i.png"), ["x", "y"], None))
    ensures FetchArticleData("g", 0, get) == ArticleData(Some("i.png"), ["x", "y"])
    ensures Requests("g", 0, get) == ["g", "a"]
  {
  }

  // ---- _looks_like_image ----

  const ImageExtensions: seq<string> := [".png", ".jpg", ".jpeg", ".webp", ".gif"]

  /** `url.startswith("http")` and `url.lower().split("?")[0]` ends with an image extension. */
  predicate LooksLikeImage(url: string) {
    StartsWith(url, "http")
    && exists i | 0 <= i < |ImageExtensions| :: EndsWith(SplitOn(Lower(url), '?')[0], ImageExtensions[i])
  }

  /** The part of `s` before its first `?`, or all of it. */
  function BeforeQuery(s: string): (r: string)
    ensures StartsWith(s, r) && '?' !in r
    ensures |r| < |s| ==> s[|r|] == '?'
  {
    match IndexWhere(s, c => c == '?')
    case None => s
    case Some(i) => s[..i]
  }

  lemma SplitOnFirst(s: string, c: char)
    ensures SplitOn(s, c)[0] == match IndexWhere(s, x => x == c) case None => s case Some(i) => s[..i]
  {
  }

  lemma LowerBeforeQuery(s: string)
    ensures SplitOn(Lower(s), '?')[0] == Lower(BeforeQuery(s))
  {
    SplitOnFirst(Lower(s), '?');
    var b := BeforeQuery(s);
    if |b| < |s| {
      assert Lower(s)[|b|] == '?';
      assert Lower(s)[..|b|] == Lower(b);
      assert forall k :: 0 <= k < |b| ==> Lower(s)[k] != '?';
      IndexWhereFirst(Lower(s), x => x == '?', |b|);
    } else {
      assert b == s;
      assert forall k :: 0 <= k < |s| ==> Lower(s)[k] != '?';
      assert IndexWhere(Lower(s), x => x == '?').None?;
    }
  }

  /**
   * An image URL starts with "http" and, ignoring ASCII case, the part before
   * the query string ends with one of the five extensions.
   */
  lemma LooksLikeImageSpec(url: string)
    ensures LooksLikeImage(url) <==>
      StartsWith(url, "http") && exists e | e in ImageExtensions :: EndsWith(Lower(BeforeQuery(url)), e)
  {
    LowerBeforeQuery(url);
  }

  // ---- the cache state ----

  /** The module globals `_cache`, `_dirty`, `_loaded`, the file, and the fetch log. */
  datatype CacheState = CacheState(
    entries: map<string, Entry>, dirty: bool, loaded: bool, file: CacheFile, fetched: seq<string>)

  /** A fresh process, before anything was read. */
  function Fresh(file: CacheFile): CacheState {
    CacheState(map[], false, false, file, [])
  }

  /** `_load_cache`: reads the file the first time only; an unreadable file resets the cache. */
  function Loaded(st: CacheState): CacheState {
    if st.loaded then st
    else
      match st.file
      case Missing => st.(loaded := true)
      case Unreadable => st.(entries := map[], loaded := true)
      case Readable(table) => st.(entries := table, loaded := true)
  }

  /** `persist_cache`: writes the table only when it changed, then it is clean. */
  function Persisted(st: CacheState): CacheState {
    if st.dirty then st.(file := Readable(st.entries), dirty := false) else st
  }

  /** `resolve_article_data(url)`: the new state and the data returned. */
  function Resolved(st: CacheState, url: string, get: string -> Option<Page>): (CacheState, ArticleData) {
    var s := Loaded(st);
    if url in s.entries then
      match s.entries[url]
      case Legacy(image) =>
        var d := ArticleData(Some(image), []);
        (s.(entries := s.entries[url := Stored(d)], dirty := true), d)
      case Stored(d) => (s, d)
    else
      var d := FetchArticleData(url, 0, get);
      (s.(entries := s.entries[url := Stored(d)], dirty := true, fetched := s.fetched + [url]), d)
  }

  /** Loading happens once: later loads change nothing, and an unreadable file leaves an empty cache. */
  lemma LoadedSpec(st: CacheState)
    ensures Loaded(st).loaded && Loaded(Loaded(st)) == Loaded(st)
    ensures st.loaded ==> Loaded(st) == st
    ensures !st.loaded && st.file == Unreadable ==> Loaded(st).entries == map[]
    ensures !st.loaded && st.file.Readable? ==> Loaded(st).entries == st.file.table
    ensures Loaded(st).dirty == st.dirty && Loaded(st).file == st.file && Loaded(st).fetched == st.fetched
  {
  }

  /**
   * Persisting leaves the cache clean; it writes the table exactly when the
   * cache was dirty, so a second call does nothing, and a fresh process that
   * reads the written file gets the same table back.
   */
  lemma PersistedSpec(st: CacheState)
    ensures !Persisted(st).dirty && Persisted(st).entries == st.entries
    ensures st.dirty ==> Persisted(st).file == Readable(st.entries)
    ensures !st.dirty ==> Persisted(st) == st
    ensures Persisted(Persisted(st)) == Persisted(st)
    ensures st.dirty ==> Loaded(Fresh(Persisted(st).file)).entries == st.entries
  {
  }

  /**
   * Resolving first loads the cache. A stored entry is returned with no
   * fetch and no change; a legacy image URL becomes an entry with that
   * image and no highlights and leaves the cache dirty; a miss fetches the
   * URL once, stores what came back and leaves the cache dirty. Other URLs'
   * entries and the file are never touched.
   */
  lemma ResolvedSpec(st: CacheState, url: string, get: string -> Option<Page>)
    ensures var (s, d) := Resolved(st, url, get); var l := Loaded(st);
      s.loaded && s.file == st.file
      && url in s.entries && s.entries[url] == Stored(d)
      && s.entries.Keys == l.entries.Keys + {url}
      && (forall u :: u in l.entries && u != url ==> s.entries[u] == l.entries[u])
    ensures var (s, d) := Resolved(st, url, get); var l := Loaded(st);
      url in l.entries && l.entries[url].Stored? ==> s == l && d == l.entries[url].data
    ensures var (s, d) := Resolved(st, url, get); var l := Loaded(st);
      url in l.entries && l.entries[url].Legacy? ==>
        d == ArticleData(Some(l.entries[url].image), []) && s.dirty && s.fetched == l.fetched
    ensures var (s, d) := Resolved(st, url, get); var l := Loaded(st);
      url !in l.entries ==>
        d == FetchArticleData(url, 0, get) && s.dirty && s.fetched == l.fetched + [url]
  {
    LoadedSpec(st);
  }

  /** After one call for a URL, the next call for it is a hit that fetches nothing and changes nothing. */
  lemma ResolvedAgainIsHit(st: CacheState, url: string, get: string -> Option<Page>)
    ensures var (s, d) := Resolved(st, url, get); Resolved(s, url, get) == (s, d)
  {
    var (s, d) := Resolved(st, url, get);
    ResolvedSpec(st, url, get);
    assert s.loaded;
  }

  /** The cache as the module globals of the source, with the file and the fetch log. */
  class Cache {
    var entries: map<string, Entry>
    var dirty: bool
    var loaded: bool
    var file: CacheFile
    var fetched: seq<string>

    function State(): CacheState
      reads this
    {
      CacheState(entries, dirty, loaded, file, fetched)
    }

    constructor(f: CacheFile)
      ensures State() == Fresh(f)
    {
      entries, dirty, loaded, file, fetched := map[], false, false, f, [];
    }

    /** `_load_cache`. */
    method Load()
      modifies this
      ensures State() == Loaded(old(State()))
    {
      if loaded {
        return;
      }
      match file {
        case Missing =>
        case Unreadable => entries := map[];
        case Readable(table) => entries := table;
      }
      loaded := true;
    }

    /** `persist_cache`. */
    method Persist()
      modifies this
      ensures State() == Persisted(old(State()))
    {
      if dirty {
        file := Readable(entries);
        dirty := false;
      }
    }

    /** `resolve_article_data(url)`. */
    method Resolve(url: string, get: string -> Option<Page>) returns (data: ArticleData)
      modifies this
      ensures (State(), data) == Resolved(old(State()), url, get)
    {
      Load();
      if url in entries {
        match entries[url] {
          case Legacy(image) =>
            data := ArticleData(Some(image), []);
            entries := entries[url := Stored(data)];
            dirty := true;
          case Stored(d) =>
            data := d;
        }
        return;
      }
      data := FetchArticleData(url, 0, get);
      fetched := fetched + [url];
      entries := entries[url := Stored(data)];
      dirty := true;
    }

    /** `resolve_image(url)`: the image of the resolved data. */
    method ResolveImage(url: string, get: string -> Option<Page>) returns (image: Option<string>)
      modifies this
      ensures State() == Resolved(old(State()), url, get).0
      ensures image == Resolved(old(State()), url, get).1.image
    {
      var data := Resolve(url, get);
      image := data.image;
    }
  }
}
