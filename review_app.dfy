/**
 * The bookkeeping behind the relevance review screen of the older Tesla
 * news tool: dropping already-rejected items from a fresh collection, the
 * keys of the rejected items, clearing the rating widgets' session values,
 * turning the rated items into evaluation entries, merging those into the
 * saved evaluations, and the timestamp caption. Streamlit's session state is
 * a map from key to value; a saved evaluation whose text field is missing
 * reads that field as "". Every use of those fields treats None and "" alike
 * except the map of saved evaluations keyed by `url or title`
 * (Tesla_news/streamlit_app.py:278-281), which files an entry with neither
 * field under None and one with both empty under ""; here both get "".
 */
module ReviewApp {
  import opened Wrappers
  import opened Text
  import Ordered
  import StableSort
  import Strptime
  import TeslaNews
  import CarStore

  // ---- the exclusion filter of _collect_and_store_news ----

  /** An item whose non-empty `url or title` is one of the excluded keys. */
  predicate Excluded(item: TeslaNews.NewsItem, excludeKeys: set<string>) {
    var key := TeslaNews.Key(item);
    key != "" && key in excludeKeys
  }

  predicate Kept(item: TeslaNews.NewsItem, excludeKeys: set<string>) {
    !Excluded(item, excludeKeys)
  }

  /**
   * The filter applied to freshly collected items: the kept items in their
   * order, and how many were dropped, which is exactly the number of
   * excluded items. With no excluded keys the items pass untouched.
   */
  method ExcludeItems(items: seq<TeslaNews.NewsItem>, excludeKeys: set<string>)
    returns (kept: seq<TeslaNews.NewsItem>, removed: nat)
    ensures kept == Ordered.Filter(items, (x: TeslaNews.NewsItem) => Kept(x, excludeKeys))
    ensures removed == |Ordered.Filter(items, (x: TeslaNews.NewsItem) => Excluded(x, excludeKeys))|
    ensures |kept| + removed == |items|
  {
    ExcludeCounts(items, excludeKeys);
    if excludeKeys == {} {
      NothingExcluded(items);
      kept, removed := items, 0;
    } else {
      kept, removed := ExcludeLoop(items, excludeKeys);
    }
  }

  /** The loop of the filter, run when some keys are excluded. */
  method ExcludeLoop(items: seq<TeslaNews.NewsItem>, excludeKeys: set<string>)
    returns (kept: seq<TeslaNews.NewsItem>, removed: nat)
    ensures kept == Ordered.Filter(items, (x: TeslaNews.NewsItem) => Kept(x, excludeKeys))
    ensures removed == |Ordered.Filter(items, (x: TeslaNews.NewsItem) => Excluded(x, excludeKeys))|
  {
    var keep := (x: TeslaNews.NewsItem) => Kept(x, excludeKeys);
    var drop := (x: TeslaNews.NewsItem) => Excluded(x, excludeKeys);
    kept, removed := [], 0;
    for i := 0 to |items|
      invariant kept == Ordered.Filter(items[..i], keep)
      invariant removed == |Ordered.Filter(items[..i], drop)|
    {
      var item := items[i];
      assert items[..i + 1] == items[..i] + [item];
      Ordered.FilterSnoc(items[..i], item, keep);
      Ordered.FilterSnoc(items[..i], item, drop);
      var key := TeslaNews.Key(item);
      if key != "" && key in excludeKeys {
        removed := removed + 1;
        continue;
      }
      kept := kept + [item];
    }
    assert items[..|items|] == items;
  }

  /** Every item is either kept or excluded. */
  lemma ExcludeCounts(items: seq<TeslaNews.NewsItem>, excludeKeys: set<string>)
    ensures |Ordered.Filter(items, (x: TeslaNews.NewsItem) => Kept(x, excludeKeys))|
          + |Ordered.Filter(items, (x: TeslaNews.NewsItem) => Excluded(x, excludeKeys))| == |items|
  {
    var keep := (x: TeslaNews.NewsItem) => Kept(x, excludeKeys);
    var drop := (x: TeslaNews.NewsItem) => Excluded(x, excludeKeys);
    Ordered.FilterSplit(items, keep, drop);
    assert |multiset(Ordered.Filter(items, keep))| + |multiset(Ordered.Filter(items, drop))| == |multiset(items)|;
  }

  /** With no excluded keys every item is kept. */
  lemma NothingExcluded(items: seq<TeslaNews.NewsItem>)
    ensures Ordered.Filter(items, (x: TeslaNews.NewsItem) => Kept(x, {})) == items
    ensures Ordered.Filter(items, (x: TeslaNews.NewsItem) => Excluded(x, {})) == []
  {
    CarStore.FilterAll(items, (x: TeslaNews.NewsItem) => Kept(x, {}));
    ExcludeCounts(items, {});
  }

  /** An item survives the filter exactly when its key is empty or not excluded. */
  lemma ExcludeItemsMembers(items: seq<TeslaNews.NewsItem>, excludeKeys: set<string>, x: TeslaNews.NewsItem)
    ensures x in Ordered.Filter(items, (y: TeslaNews.NewsItem) => Kept(y, excludeKeys))
        <==> x in items && (TeslaNews.Key(x) == "" || TeslaNews.Key(x) !in excludeKeys)
  {
    if x in items {
      Ordered.FilterMember(items, (y: TeslaNews.NewsItem) => Kept(y, excludeKeys), x);
    }
  }

  // ---- saved evaluations ----

  datatype Entry = Entry(title: string, source: string, url: string, summary: string,
                         relevance: string, reason: string, evaluatedAt: string)

  /** `entry.get("url") or entry.get("title")`. */
  function EntryKey(e: Entry): string {
    if e.url != "" then e.url else e.title
  }

  /**
   * `extract_low_relevance_keys`: the non-empty keys of the entries rated
   * "low", and nothing else.
   */
  method ExtractLowRelevanceKeys(entries: seq<Entry>) returns (keys: set<string>)
    ensures forall k :: k in keys <==> k != "" && exists e :: e in entries && e.relevance == "low" && EntryKey(e) == k
  {
    keys := {};
    for i := 0 to |entries|
      invariant forall k :: k in keys <==>
        k != "" && exists j :: 0 <= j < i && entries[j].relevance == "low" && EntryKey(entries[j]) == k
    {
      var entry := entries[i];
      if entry.relevance != "low" {
        continue;
      }
      var key := EntryKey(entry);
      if key != "" {
        keys := keys + {key};
      }
    }
    forall k | k != "" && (exists e :: e in entries && e.relevance == "low" && EntryKey(e) == k)
      ensures k in keys
    {
      var e :| e in entries && e.relevance == "low" && EntryKey(e) == k;
      var j :| 0 <= j < |entries| && entries[j] == e;
    }
  }

  /**
   * An item judged "low" in a saved entry is left out of every later
   * collection filtered by the extracted keys.
   */
  lemma LowRelevanceItemDropped(items: seq<TeslaNews.NewsItem>, entries: seq<Entry>, keys: set<string>,
                                e: Entry, x: TeslaNews.NewsItem)
    requires forall k :: k in keys <==> k != "" && exists e' :: e' in entries && e'.relevance == "low" && EntryKey(e') == k
    requires e in entries && e.relevance == "low" && EntryKey(e) != ""
    requires TeslaNews.Key(x) == EntryKey(e)
    ensures x !in Ordered.Filter(items, (y: TeslaNews.NewsItem) => Kept(y, keys))
  {
    assert EntryKey(e) in keys;
    ExcludeItemsMembers(items, keys, x);
  }

  // ---- session state ----

  /** A session value: the text of a widget, or one of the cached payloads. */
  datatype SessionValue = Widget(text: string) | Cached

  /** The keys of the rating widgets: `rating_value_*`, `reason_*` and `radio_*`. */
  predicate IsRatingKey(k: string) {
    StartsWith(k, "rating_value_") || StartsWith(k, "reason_") || StartsWith(k, "radio_")
  }

  /** The session without its rating widgets' values. */
  function Cleared(m: map<string, SessionValue>): map<string, SessionValue> {
    map k | k in m && !IsRatingKey(k) :: m[k]
  }

  /** `st.session_state.get(key, "")` for a widget's text. */
  function WidgetText(m: map<string, SessionValue>, key: string): string {
    if key in m && m[key].Widget? then m[key].text else ""
  }

  function RatingKey(index: nat): string { "rating_value_" + NatToString(index) }
  function ReasonKey(index: nat): string { "reason_" + NatToString(index) }

  /** The rating chosen for the item at `index`, "" when none. */
  function Rating(m: map<string, SessionValue>, index: nat): string { WidgetText(m, RatingKey(index)) }

  /** The stripped reason typed for the item at `index`. */
  function Reason(m: map<string, SessionValue>, index: nat): string { Strip(WidgetText(m, ReasonKey(index))) }

  /** Streamlit's session state, which `reset_rating_state` edits in place. */
  class Session {
    var values: map<string, SessionValue>

    constructor (values: map<string, SessionValue>)
      ensures this.values == values
    {
      this.values := values;
    }

    /**
     * `reset_rating_state`: deletes exactly the rating widgets' keys; every
     * other key keeps its value.
     */
    method ResetRatingState()
      modifies this
      ensures forall k :: k in values <==> k in old(values) && !IsRatingKey(k)
      ensures forall k :: k in values ==> values[k] == old(values)[k]
      ensures values == Cleared(old(values))
    {
      var toDelete := set k | k in values && IsRatingKey(k);
      while toDelete != {}
        invariant toDelete <= values.Keys
        invariant forall k :: k in values <==> k in old(values) && (k in toDelete || !IsRatingKey(k))
        invariant forall k :: k in values ==> values[k] == old(values)[k]
        decreases toDelete
      {
        var k :| k in toDelete;
        values := values - {k};
        toDelete := toDelete - {k};
      }
      assert values.Keys == Cleared(old(values)).Keys;
    }
  }

  // ---- collect_evaluation_entries ----

  /** An item of the news payload; a field the payload lacks is None. */
  datatype PayloadItem = PayloadItem(title: Option<string>, source: Option<string>,
                                     url: Option<string>, summary: Option<string>)

  /** The title an entry gets when its item has none. */
  const Untitled: string := "제목 없음"

  /** The name a missing-reason warning gives an untitled item: "항목 <index + 1>". */
  function ItemLabel(index: nat): string { "항목 " + NatToString(index + 1) }

  /** The entry recorded for a rated item. */
  function EntryOf(item: PayloadItem, index: nat, m: map<string, SessionValue>, now: string): Entry {
    var rating := Rating(m, index);
    Entry(item.title.GetOr(Untitled), item.source.GetOr(""), item.url.GetOr(""), item.summary.GetOr(""),
          rating, if rating == "low" then Reason(m, index) else "", now)
  }

  /** The item at `index` is rated "low" without a reason. */
  predicate MissesReason(m: map<string, SessionValue>, index: nat) {
    Rating(m, index) == "low" && Reason(m, index) == ""
  }

  /** The entries of the first `n` items: one per rated item, in order. */
  function Entries(items: seq<PayloadItem>, m: map<string, SessionValue>, now: string, n: nat): seq<Entry>
    requires n <= |items|
  {
    if n == 0 then []
    else
      var earlier := Entries(items, m, now, n - 1);
      if Rating(m, n - 1) != "" then earlier + [EntryOf(items[n - 1], n - 1, m, now)] else earlier
  }

  /** The names of the first `n` items rated "low" without a reason, in order. */
  function MissingReasons(items: seq<PayloadItem>, m: map<string, SessionValue>, n: nat): seq<string>
    requires n <= |items|
  {
    if n == 0 then []
    else
      var earlier := MissingReasons(items, m, n - 1);
      if MissesReason(m, n - 1) then earlier + [items[n - 1].title.GetOr(ItemLabel(n - 1))] else earlier
  }

  /** `collect_evaluation_entries`, with `datetime.now(KST).isoformat()` as `now`. */
  method CollectEvaluationEntries(items: seq<PayloadItem>, m: map<string, SessionValue>, now: string)
    returns (entries: seq<Entry>, missing: seq<string>)
    ensures entries == Entries(items, m, now, |items|)
    ensures missing == MissingReasons(items, m, |items|)
  {
    entries, missing := [], [];
    for index := 0 to |items|
      invariant entries == Entries(items, m, now, index)
      invariant missing == MissingReasons(items, m, index)
    {
      var item := items[index];
      var rating := WidgetText(m, "rating_value_" + NatToString(index));
      if rating == "" {
        continue;
      }
      var reason := Strip(WidgetText(m, "reason_" + NatToString(index)));
      if rating == "low" && reason == "" {
        missing := missing + [item.title.GetOr("항목 " + NatToString(index + 1))];
      }
      var entry := Entry(item.title.GetOr(Untitled), item.source.GetOr(""), item.url.GetOr(""),
                         item.summary.GetOr(""), rating, if rating == "low" then reason else "", now);
      entries := entries + [entry];
    }
  }

  /**
   * Every rated item, and only a rated item, yields its entry; an entry
   * carries a reason only when it is rated "low", and all share `now`.
   */
  lemma {:induction false} EntriesSpec(items: seq<PayloadItem>, m: map<string, SessionValue>, now: string, n: nat)
    requires n <= |items|
    ensures |Entries(items, m, now, n)| <= n
    ensures forall i :: 0 <= i < n && Rating(m, i) != "" ==> EntryOf(items[i], i, m, now) in Entries(items, m, now, n)
    ensures forall e :: e in Entries(items, m, now, n) ==>
      exists i :: 0 <= i < n && Rating(m, i) != "" && e == EntryOf(items[i], i, m, now)
    ensures forall e :: e in Entries(items, m, now, n) ==>
      e.relevance != "" && e.evaluatedAt == now && (e.relevance != "low" ==> e.reason == "")
  {
    if n > 0 {
      EntriesSpec(items, m, now, n - 1);
    }
  }

  /**
   * Each name in `missing_reasons` belongs to an item rated "low" with a
   * blank reason, and every such item is named; those items still get
   * their entries.
   */
  lemma {:induction false} MissingReasonsSpec(items: seq<PayloadItem>, m: map<string, SessionValue>, n: nat)
    requires n <= |items|
    ensures forall t :: t in MissingReasons(items, m, n) ==>
      exists i :: 0 <= i < n && MissesReason(m, i) && t == items[i].title.GetOr(ItemLabel(i))
    ensures forall i :: 0 <= i < n && MissesReason(m, i) ==> items[i].title.GetOr(ItemLabel(i)) in MissingReasons(items, m, n)
  {
    if n > 0 {
      MissingReasonsSpec(items, m, n - 1);
    }
  }

  /** There are never more missing-reason warnings than entries. */
  lemma {:induction false} MissingReasonsFewer(items: seq<PayloadItem>, m: map<string, SessionValue>, now: string, n: nat)
    requires n <= |items|
    ensures |MissingReasons(items, m, n)| <= |Entries(items, m, now, n)|
  {
    if n > 0 {
      MissingReasonsFewer(items, m, now, n - 1);
    }
  }

  /** Once the ratings are reset, saving collects nothing. */
  lemma {:induction false} ClearedCollectsNothing(items: seq<PayloadItem>, m: map<string, SessionValue>, now: string, n: nat)
    requires n <= |items|
    ensures Entries(items, Cleared(m), now, n) == []
    ensures MissingReasons(items, Cleared(m), n) == []
  {
    if n > 0 {
      ClearedCollectsNothing(items, m, now, n - 1);
      assert IsRatingKey(RatingKey(n - 1)) by {
        assert RatingKey(n - 1)[..13] == "rating_value_";
      }
    }
  }

  // ---- merge_evaluations ----

  /** A Python dict from key to entry: distinct keys in insertion order. */
  type Dict = seq<(string, Entry)>

  predicate DistinctKeys(d: Dict) {
    forall i, j :: 0 <= i < j < |d| ==> d[i].0 != d[j].0
  }

  function Lookup(d: Dict, k: string): Option<Entry> {
    if d == [] then None
    else if d[0].0 == k then Some(d[0].1)
    else Lookup(d[1..], k)
  }

  /** `d[k] = v`: an existing key keeps its place, a new one goes last. */
  function Put(d: Dict, k: string, v: Entry): Dict {
    if d == [] then [(k, v)]
    else if d[0].0 == k then [(k, v)] + d[1..]
    else [d[0]] + Put(d[1..], k, v)
  }

  /** `d.values()`. */
  function Values(d: Dict): (vs: seq<Entry>)
    ensures |vs| == |d|
    ensures forall i :: 0 <= i < |d| ==> vs[i] == d[i].1
  {
    seq(|d|, i requires 0 <= i < |d| => d[i].1)
  }

  /** The copy of `existing` after the assignments of the merge loop. */
  function Assign(existing: Dict, news: seq<Entry>): Dict {
    if news == [] then existing
    else
      var d := Assign(existing, news[..|news| - 1]);
      var e := news[|news| - 1];
      if EntryKey(e) != "" then Put(d, EntryKey(e), e) else d
  }

  /** The last of `news` whose key is `k`. */
  function LastWithKey(news: seq<Entry>, k: string): (r: Option<Entry>)
    ensures r.Some? ==> r.value in news && EntryKey(r.value) == k
  {
    if news == [] then None
    else if EntryKey(news[|news| - 1]) == k then Some(news[|news| - 1])
    else LastWithKey(news[..|news| - 1], k)
  }

  /** Newest first by the `evaluated_at` strings. */
  function NewerFirst(): (Entry, Entry) -> bool {
    (a: Entry, b: Entry) => LexLe(b.evaluatedAt, a.evaluatedAt)
  }

  lemma NewerFirstPreorder()
    ensures StableSort.Total(NewerFirst()) && StableSort.Transitive(NewerFirst())
  {
    forall a: Entry, b: Entry ensures NewerFirst()(a, b) || NewerFirst()(b, a) {
      LexLeTotal(a.evaluatedAt, b.evaluatedAt);
    }
    forall a: Entry, b: Entry, c: Entry | NewerFirst()(a, b) && NewerFirst()(b, c)
      ensures NewerFirst()(a, c)
    {
      LexLeTransitive(c.evaluatedAt, b.evaluatedAt, a.evaluatedAt);
    }
  }

  lemma {:induction false} PutSpec(d: Dict, k: string, v: Entry)
    requires DistinctKeys(d)
    ensures DistinctKeys(Put(d, k, v))
    ensures forall k' :: Lookup(Put(d, k, v), k') == if k' == k then Some(v) else Lookup(d, k')
    ensures forall x :: x in Put(d, k, v) ==> x == (k, v) || x in d
  {
    if d != [] && d[0].0 != k {
      var tail := d[1..];
      PutSpec(tail, k, v);
      var r := Put(d, k, v);
      assert r == [d[0]] + Put(tail, k, v);
      forall x | x in Put(tail, k, v) ensures x.0 != d[0].0 {
        if x != (k, v) {
          assert x in tail;
        }
      }
      forall i, j | 0 <= i < j < |r| ensures r[i].0 != r[j].0 {
        if i == 0 {
          assert r[j] in Put(tail, k, v);
        }
      }
    }
  }

  lemma {:induction false} AssignDistinct(existing: Dict, news: seq<Entry>)
    requires DistinctKeys(existing)
    ensures DistinctKeys(Assign(existing, news))
  {
    if news != [] {
      AssignDistinct(existing, news[..|news| - 1]);
      var e := news[|news| - 1];
      if EntryKey(e) != "" {
        PutSpec(Assign(existing, news[..|news| - 1]), EntryKey(e), e);
      }
    }
  }

  /**
   * After the merge loop a key holds the last new entry with that key when
   * there is one (keyless entries are never stored), and otherwise what the
   * saved evaluations held.
   */
  lemma {:induction false} AssignLookup(existing: Dict, news: seq<Entry>, k: string)
    requires DistinctKeys(existing)
    ensures Lookup(Assign(existing, news), k)
      == if k != "" && LastWithKey(news, k).Some? then LastWithKey(news, k) else Lookup(existing, k)
  {
    if news != [] {
      var init := news[..|news| - 1];
      AssignLookup(existing, init, k);
      AssignDistinct(existing, init);
      var e := news[|news| - 1];
      if EntryKey(e) != "" {
        PutSpec(Assign(existing, init), EntryKey(e), e);
      }
    }
  }

  lemma {:induction false} LookupFound(d: Dict, k: string)
    requires Lookup(d, k).Some?
    ensures Lookup(d, k).value in Values(d)
  {
    if d[0].0 != k {
      LookupFound(d[1..], k);
      assert Values(d[1..]) == Values(d)[1..];
    }
  }

  lemma {:induction false} LookupAt(d: Dict, i: nat)
    requires DistinctKeys(d) && i < |d|
    ensures Lookup(d, d[i].0) == Some(d[i].1)
  {
    if i > 0 {
      LookupAt(d[1..], i - 1);
    }
  }

  lemma {:induction false} AssignFrom(existing: Dict, news: seq<Entry>)
    ensures forall x :: x in Assign(existing, news) ==> x in existing || x.1 in news
  {
    if news != [] {
      var init := news[..|news| - 1];
      AssignFrom(existing, init);
      var e := news[|news| - 1];
      if EntryKey(e) != "" {
        PutSpecFrom(Assign(existing, init), EntryKey(e), e);
      }
    }
  }

  lemma {:induction false} PutSpecFrom(d: Dict, k: string, v: Entry)
    ensures forall x :: x in Put(d, k, v) ==> x == (k, v) || x in d
  {
    if d != [] && d[0].0 != k {
      PutSpecFrom(d[1..], k, v);
    }
  }

  /**
   * `merge_evaluations`: the saved entries with the new ones assigned by
   * key (keyless new entries ignored), newest `evaluated_at` first, equal
   * timestamps in dict order. The saved evaluations are a value, so the
   * caller's copy is never changed.
   */
  method MergeEvaluations(existing: Dict, newEntries: seq<Entry>) returns (merged: seq<Entry>)
    requires DistinctKeys(existing)
    ensures merged == StableSort.Sort(Values(Assign(existing, newEntries)), NewerFirst())
  {
    var d := existing;
    for i := 0 to |newEntries|
      invariant d == Assign(existing, newEntries[..i])
    {
      var entry := newEntries[i];
      assert newEntries[..i + 1][..i] == newEntries[..i];
      var key := EntryKey(entry);
      if key != "" {
        d := Put(d, key, entry);
      }
    }
    assert newEntries[..|newEntries|] == newEntries;
    merged := StableSort.Sort(Values(d), NewerFirst());
  }

  /**
   * The merged list is newest first; it holds the last new entry of every
   * non-empty key and every saved entry whose key no new entry took, and
   * nothing but saved or new entries.
   */
  lemma MergeSpec(existing: Dict, news: seq<Entry>)
    requires DistinctKeys(existing)
    ensures var merged := StableSort.Sort(Values(Assign(existing, news)), NewerFirst());
      && StableSort.Sorted(merged, NewerFirst())
      && |merged| == |Assign(existing, news)|
      && (forall k :: k != "" && LastWithKey(news, k).Some? ==> LastWithKey(news, k).value in merged)
      && (forall i :: 0 <= i < |existing| && (existing[i].0 == "" || LastWithKey(news, existing[i].0).None?)
            ==> existing[i].1 in merged)
      && (forall e :: e in merged ==> e in news || e in Values(existing))
  {
    var d := Assign(existing, news);
    var merged := StableSort.Sort(Values(d), NewerFirst());
    NewerFirstPreorder();
    StableSort.SortSorted(Values(d), NewerFirst());
    StableSort.SortPermutation(Values(d), NewerFirst());
    AssignDistinct(existing, news);
    forall k | k != "" && LastWithKey(news, k).Some? ensures LastWithKey(news, k).value in merged {
      AssignLookup(existing, news, k);
      LookupFound(d, k);
      assert LastWithKey(news, k).value in multiset(Values(d));
    }
    forall i | 0 <= i < |existing| && (existing[i].0 == "" || LastWithKey(news, existing[i].0).None?)
      ensures existing[i].1 in merged
    {
      var k := existing[i].0;
      AssignLookup(existing, news, k);
      LookupAt(existing, i);
      LookupFound(d, k);
      assert existing[i].1 in multiset(Values(d));
    }
    AssignFrom(existing, news);
    forall e | e in merged ensures e in news || e in Values(existing) {
      assert e in multiset(Values(d));
      var j :| 0 <= j < |d| && Values(d)[j] == e;
      assert d[j] in d;
      if d[j] in existing {
        var i :| 0 <= i < |existing| && existing[i] == d[j];
        assert Values(existing)[i] == e;
      }
    }
  }

  // ---- format_timestamp ----

  /** A wall-clock time `datetime` can hold. */
  predicate ValidClock(p: Strptime.Parsed) {
    1 <= p.year <= 9999 && 1 <= p.month <= 12 && 1 <= p.day <= 31 && p.hour < 24 && p.minute < 60
  }

  /**
   * `format_timestamp`: "-" for a missing or empty value, the value itself
   * when it is not ISO 8601, else `%Y-%m-%d %H:%M KST` of the time in KST.
   * `toKst` is `datetime.fromisoformat` followed by the KST localisation or
   * conversion.
   */
  function FormatTimestamp(raw: Option<string>, toKst: string -> Option<Strptime.Parsed>): string
    requires raw.Some? && toKst(raw.value).Some? ==> ValidClock(toKst(raw.value).value)
  {
    if raw.None? || raw.value == "" then "-"
    else match toKst(raw.value)
      case None => raw.value
      case Some(p) =>
        Strptime.YmdText(p.year, p.month, p.day, '-') + " " + Strptime.Pad2(p.hour) + ":" + Strptime.Pad2(p.minute) + " KST"
  }

  /**
   * The caption's three cases; a rendered time is 20 characters, ends in
   * " KST", and its date and clock read back as the time it shows.
   */
  lemma FormatTimestampSpec(raw: Option<string>, toKst: string -> Option<Strptime.Parsed>)
    requires raw.Some? && toKst(raw.value).Some? ==> ValidClock(toKst(raw.value).value)
    ensures raw.None? || raw == Some("") ==> FormatTimestamp(raw, toKst) == "-"
    ensures raw.Some? && raw.value != "" && toKst(raw.value).None? ==> FormatTimestamp(raw, toKst) == raw.value
    ensures raw.Some? && raw.value != "" && toKst(raw.value).Some? ==>
      var r, p := FormatTimestamp(raw, toKst), toKst(raw.value).value;
      && |r| == 20 && EndsWith(r, " KST")
      && Strptime.DashYmd(r[..10]) == Some(Strptime.Parsed(p.year, p.month, p.day, 0, 0))
      && r[10] == ' ' && r[13] == ':'
      && IsAsciiDigit(r[11]) && IsAsciiDigit(r[12])
      && DigitValue(r[11]) * 10 + DigitValue(r[12]) == p.hour
      && Strptime.Minute(r[14..16]) == Some(Strptime.Field(p.minute, 2))
  {
    if raw.Some? && raw.value != "" && toKst(raw.value).Some? {
      var p := toKst(raw.value).value;
      var date := Strptime.YmdText(p.year, p.month, p.day, '-');
      var r := FormatTimestamp(raw, toKst);
      assert r == date + " " + Strptime.Pad2(p.hour) + ":" + Strptime.Pad2(p.minute) + " KST";
      assert r[..10] == date;
      Strptime.DashYmdText(p.year, p.month, p.day);
      assert r[14..16] == Strptime.Pad2(p.minute);
      Strptime.MinuteOfPad2(p.minute);
      Strptime.DigitRoundTrip(p.hour / 10);
      Strptime.DigitRoundTrip(p.hour % 10);
    }
  }
}
