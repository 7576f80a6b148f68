/**
 * The relevance feedback store: a status per article url, token weights
 * learned from status changes, and a bounded history log. Weights are exact
 * reals (every change is a multiple of 1.5, so no rounding arises except at
 * the clamp). Reading and writing the JSON file is not modelled; the store is
 * the in-memory object the functions share.
 */
module Feedback {
  import opened Wrappers
  import opened Text
  import Ordered

  datatype Status = Neutral | High | Low

  const HighLabel: string := "High relevance"
  const LowLabel: string := "Low relevance"
  const WeightClamp: real := 10.0
  const HistoryLimit: nat := 200

  /** `LABEL_MAP`: the label shown for each status; neutral has none. */
  function Label(s: Status): Option<string> {
    match s
    case Neutral => None
    case High => Some(HighLabel)
    case Low => Some(LowLabel)
  }

  /** `LABEL_TO_STATUS.get(label)`: the inverse of `Label`. */
  function StatusOfLabel(relevance: string): Option<Status> {
    if relevance == HighLabel then Some(High)
    else if relevance == LowLabel then Some(Low)
    else None
  }

  /** The two tables are inverse to each other, and no label names neutral. */
  lemma LabelRoundTrip(s: Status, relevance: string)
    ensures StatusOfLabel(relevance) == Some(s) <==> Label(s) == Some(relevance)
    ensures StatusOfLabel(relevance) != Some(Neutral)
  {
  }

  /** `STATUS_WEIGHTS`. */
  function StatusWeight(s: Status): real {
    match s
    case Neutral => 0.0
    case High => 1.5
    case Low => -1.5
  }

  // ---- tokenize ----

  /** The character class `[A-Za-z0-9가-힣]`. */
  predicate IsTokenChar(c: char) {
    ('A' <= c <= 'Z') || ('a' <= c <= 'z') || ('0' <= c <= '9') || ('\U{AC00}' <= c <= '\U{D7A3}')
  }

  predicate NotTokenChar(c: char) { !IsTokenChar(c) }

  predicate LongEnough(w: string) { |w| >= 2 }

  /**
   * `TOKEN_PATTERN.findall(text.lower())`: the maximal runs of token
   * characters of the lower-cased text that are at least two long, in order.
   */
  function Tokenize(text: string): seq<string> {
    Ordered.Filter(SplitWhere(Lower(text), NotTokenChar), LongEnough)
  }

  /** Every token is at least two lower-case token characters. */
  lemma TokenizeShape(text: string)
    ensures forall t :: t in Tokenize(text) ==>
      |t| >= 2 && forall k :: 0 <= k < |t| ==> IsTokenChar(t[k]) && !IsAsciiUpper(t[k])
  {
    var pieces := SplitWhere(Lower(text), NotTokenChar);
    forall t | t in Tokenize(text)
      ensures |t| >= 2 && forall k :: 0 <= k < |t| ==> IsTokenChar(t[k]) && !IsAsciiUpper(t[k])
    {
      assert t in pieces;
      PieceOfLower(Lower(text), pieces, t);
    }
  }

  lemma PieceOfLower(s: string, pieces: seq<string>, t: string)
    requires forall k :: 0 <= k < |s| ==> !IsAsciiUpper(s[k])
    requires pieces == SplitWhere(s, NotTokenChar) && t in pieces
    ensures forall k :: 0 <= k < |t| ==> !IsAsciiUpper(t[k])
    decreases |s|
  {
    match IndexWhere(s, NotTokenChar)
    case None =>
    case Some(i) =>
      if t != s[..i] {
        PieceOfLower(s[i + 1..], SplitWhere(s[i + 1..], NotTokenChar), t);
      }
  }

  /** A space separates: the tokens of `a + " " + b` are those of `a` then those of `b`. */
  lemma TokenizeJoin(a: string, b: string)
    ensures Tokenize(a + " " + b) == Tokenize(a) + Tokenize(b)
  {
    LowerAppend(a + " ", b);
    LowerAppend(a, " ");
    assert Lower(a + " " + b) == Lower(a) + [' '] + Lower(b);
    SplitWhereConcat(Lower(a), ' ', Lower(b), NotTokenChar);
    Ordered.FilterAppend(SplitWhere(Lower(a), NotTokenChar), SplitWhere(Lower(b), NotTokenChar), LongEnough);
  }

  // ---- Counter ----

  function Count(toks: seq<string>, t: string): nat {
    multiset(toks)[t]
  }

  // ---- scoring ----

  /** `a * n` for a count `n`, as repeated addition. */
  function Times(a: real, n: nat): real {
    if n == 0 then 0.0 else Times(a, n - 1) + a
  }

  lemma {:induction false} TimesIsProduct(a: real, n: nat)
    ensures Times(a, n) == a * (n as real)
  {
    if n > 0 {
      TimesIsProduct(a, n - 1);
    }
  }

  lemma {:induction false} TimesSign(a: real, n: nat)
    ensures a >= 0.0 ==> Times(a, n) >= 0.0
    ensures a <= 0.0 ==> Times(a, n) <= 0.0
  {
    if n > 0 {
      TimesSign(a, n - 1);
    }
  }

  function Weight(w: map<string, real>, t: string): real {
    Get(w, t, 0.0)
  }

  /** `sum(weights.get(token, 0.0) * count for token, count in tokens.items())` over the given keys. */
  function SumCounts(keys: seq<string>, w: map<string, real>, toks: seq<string>): real {
    if keys == [] then 0.0
    else
      var t := keys[|keys| - 1];
      SumCounts(keys[..|keys| - 1], w, toks) + Times(Weight(w, t), Count(toks, t))
  }

  /** The weight of every token occurrence, added up. */
  function OccurrenceSum(w: map<string, real>, toks: seq<string>): real {
    if toks == [] then 0.0
    else OccurrenceSum(w, toks[..|toks| - 1]) + Weight(w, toks[|toks| - 1])
  }

  function ScoreTokens(w: map<string, real>, toks: seq<string>): real {
    SumCounts(Ordered.Distinct(toks), w, toks)
  }

  /** `score_article(title, summary)`. */
  function Score(w: map<string, real>, title: string, summary: string): real {
    ScoreTokens(w, Tokenize(title + " " + summary))
  }

  lemma {:induction false} SumCountsSnoc(keys: seq<string>, w: map<string, real>, toks: seq<string>, x: string)
    ensures SumCounts(keys, w, toks + [x])
         == SumCounts(keys, w, toks) + Times(Weight(w, x), multiset(keys)[x])
  {
    if keys != [] {
      var p := keys[..|keys| - 1];
      var t := keys[|keys| - 1];
      SumCountsSnoc(p, w, toks, x);
      assert keys == p + [t];
      assert multiset(keys) == multiset(p) + multiset{t};
      assert multiset(toks + [x]) == multiset(toks) + multiset{x};
      var a := Weight(w, t);
      var c := Count(toks, t);
      if t == x {
        assert Count(toks + [x], t) == c + 1;
        assert multiset(keys)[x] == multiset(p)[x] + 1;
      } else {
        assert Count(toks + [x], t) == c;
        assert multiset(keys)[x] == multiset(p)[x];
      }
    }
  }

  /** Counting per distinct token is the same as adding up every occurrence. */
  lemma {:induction false} ScoreIsOccurrenceSum(w: map<string, real>, toks: seq<string>)
    ensures ScoreTokens(w, toks) == OccurrenceSum(w, toks)
  {
    if toks != [] {
      var p := toks[..|toks| - 1];
      var x := toks[|toks| - 1];
      assert toks == p + [x];
      ScoreIsOccurrenceSum(w, p);
      ScoreTokensSnoc(w, p, x);
    }
  }

  /** One more occurrence of a token adds its weight once. */
  lemma ScoreTokensSnoc(w: map<string, real>, p: seq<string>, x: string)
    ensures ScoreTokens(w, p + [x]) == ScoreTokens(w, p) + Weight(w, x)
  {
    var d := Ordered.Distinct(p);
    SumCountsSnoc(d, w, p, x);
    Ordered.DistinctSpec(p, x);
    Ordered.DistinctSnoc(p, x);
    if x !in p {
      SumCountsNewKey(d, w, p + [x], x);
      assert multiset(p + [x])[x] == multiset(p)[x] + 1;
    }
  }

  /** A last key not counted before adds its weight times its count. */
  lemma SumCountsNewKey(d: seq<string>, w: map<string, real>, toks: seq<string>, x: string)
    ensures SumCounts(d + [x], w, toks) == SumCounts(d, w, toks) + Times(Weight(w, x), Count(toks, x))
  {
    assert (d + [x])[..|d|] == d;
  }

  lemma {:induction false} OccurrenceSumAppend(w: map<string, real>, a: seq<string>, b: seq<string>)
    ensures OccurrenceSum(w, a + b) == OccurrenceSum(w, a) + OccurrenceSum(w, b)
    decreases |b|
  {
    if b == [] {
      assert a + b == a;
    } else {
      assert (a + b)[..|a + b| - 1] == a + b[..|b| - 1];
      OccurrenceSumAppend(w, a, b[..|b| - 1]);
    }
  }

  /**
   * The score of an article is the weight of every token occurrence of its
   * title plus that of its summary; tokens without a weight count zero.
   */
  lemma ScoreSplits(w: map<string, real>, title: string, summary: string)
    ensures Score(w, title, summary) == OccurrenceSum(w, Tokenize(title)) + OccurrenceSum(w, Tokenize(summary))
  {
    TokenizeJoin(title, summary);
    ScoreIsOccurrenceSum(w, Tokenize(title + " " + summary));
    OccurrenceSumAppend(w, Tokenize(title), Tokenize(summary));
  }

  /** With no learned weights every article scores zero. */
  lemma {:induction false} ScoreWithoutWeights(toks: seq<string>)
    ensures OccurrenceSum(map[], toks) == 0.0
  {
    if toks != [] {
      ScoreWithoutWeights(toks[..|toks| - 1]);
    }
  }

  // ---- weight updates ----

  /** `_clamp`. */
  function Clamp(v: real): (r: real)
    ensures -WeightClamp <= r <= WeightClamp
    ensures -WeightClamp <= v <= WeightClamp ==> r == v
    ensures v > WeightClamp ==> r == WeightClamp
    ensures v < -WeightClamp ==> r == -WeightClamp
  {
    if v > WeightClamp then WeightClamp
    else if v < -WeightClamp then -WeightClamp
    else v
  }

  ghost predicate Bounded(w: map<string, real>) {
    forall t | t in w :: -WeightClamp <= w[t] <= WeightClamp
  }

  /** Each token of the article moves by `delta` per occurrence, clamped; other weights stay. */
  function Reweighted(w: map<string, real>, toks: seq<string>, delta: real): map<string, real> {
    map t | t in w.Keys + (set x | x in toks) ::
      if t in toks then Moved(w, toks, delta, t) else w[t]
  }

  /** The new weight of a token of the article. */
  function Moved(w: map<string, real>, toks: seq<string>, delta: real, t: string): real {
    Clamp(Weight(w, t) + Times(delta, Count(toks, t)))
  }

  /**
   * Reweighting touches exactly the article's tokens and keeps every weight
   * of the table within the clamp when it started there.
   */
  lemma ReweightedSpec(w: map<string, real>, toks: seq<string>, delta: real)
    ensures forall t :: t in toks ==> (t in Reweighted(w, toks, delta)
      && -WeightClamp <= Reweighted(w, toks, delta)[t] <= WeightClamp)
    ensures forall t :: t in w && t !in toks ==> t in Reweighted(w, toks, delta) && Reweighted(w, toks, delta)[t] == w[t]
    ensures forall t :: t in Reweighted(w, toks, delta) ==> t in w || t in toks
    ensures Bounded(w) ==> Bounded(Reweighted(w, toks, delta))
  {
    var r := Reweighted(w, toks, delta);
    forall t | t in toks
      ensures t in r && -WeightClamp <= r[t] <= WeightClamp
    {
      assert t in (set x | x in toks);
    }
  }

  lemma {:induction false} OccurrenceSumMonotone(w1: map<string, real>, w2: map<string, real>, toks: seq<string>)
    requires forall t :: t in toks ==> Weight(w1, t) <= Weight(w2, t)
    ensures OccurrenceSum(w1, toks) <= OccurrenceSum(w2, toks)
  {
    if toks != [] {
      OccurrenceSumMonotone(w1, w2, toks[..|toks| - 1]);
      assert toks[|toks| - 1] in toks;
    }
  }

  /** Weights that grow nowhere less and somewhere on an occurring token make the sum grow strictly. */
  lemma {:induction false} OccurrenceSumStrict(w1: map<string, real>, w2: map<string, real>, toks: seq<string>, t: string)
    requires forall u :: u in toks ==> Weight(w1, u) <= Weight(w2, u)
    requires t in toks && Weight(w1, t) < Weight(w2, t)
    ensures OccurrenceSum(w1, toks) < OccurrenceSum(w2, toks)
  {
    var p := toks[..|toks| - 1];
    var x := toks[|toks| - 1];
    assert toks == p + [x];
    if x == t {
      OccurrenceSumMonotone(w1, w2, p);
    } else {
      assert t in p;
      OccurrenceSumStrict(w1, w2, p, t);
    }
  }

  /**
   * How one weight moves: in the direction of `delta`, and strictly for a
   * token of the article whose weight is not yet at that end of the clamp.
   */
  lemma ReweightedWeight(w: map<string, real>, toks: seq<string>, delta: real, t: string)
    requires Bounded(w)
    ensures delta >= 0.0 ==> Weight(w, t) <= Weight(Reweighted(w, toks, delta), t)
    ensures delta <= 0.0 ==> Weight(Reweighted(w, toks, delta), t) <= Weight(w, t)
    ensures delta > 0.0 && t in toks && Weight(w, t) < WeightClamp ==> Weight(w, t) < Weight(Reweighted(w, toks, delta), t)
    ensures delta < 0.0 && t in toks && -WeightClamp < Weight(w, t) ==> Weight(Reweighted(w, toks, delta), t) < Weight(w, t)
  {
    ReweightedSpec(w, toks, delta);
    assert -WeightClamp <= Weight(w, t) <= WeightClamp;
    if t in toks {
      var n := Count(toks, t);
      assert n >= 1 by { assert multiset(toks)[t] >= 1; }
      TimesSign(delta, n - 1);
      assert Times(delta, n) == Times(delta, n - 1) + delta;
    }
  }

  /**
   * Learning moves scores the right way, for every article and not only the
   * one marked: a higher status (delta > 0) never lowers any score, and
   * raises strictly the score of an article sharing a token whose weight is
   * below the clamp; a lower status (delta < 0) mirrors this.
   */
  lemma ReweightedMovesScore(w: map<string, real>, toks: seq<string>, delta: real, other: seq<string>)
    requires Bounded(w)
    ensures delta >= 0.0 ==> ScoreTokens(Reweighted(w, toks, delta), other) >= ScoreTokens(w, other)
    ensures delta <= 0.0 ==> ScoreTokens(Reweighted(w, toks, delta), other) <= ScoreTokens(w, other)
    ensures delta > 0.0 && (exists t :: t in other && t in toks && Weight(w, t) < WeightClamp) ==>
      ScoreTokens(Reweighted(w, toks, delta), other) > ScoreTokens(w, other)
    ensures delta < 0.0 && (exists t :: t in other && t in toks && -WeightClamp < Weight(w, t)) ==>
      ScoreTokens(Reweighted(w, toks, delta), other) < ScoreTokens(w, other)
  {
    var w2 := Reweighted(w, toks, delta);
    ScoreIsOccurrenceSum(w, other);
    ScoreIsOccurrenceSum(w2, other);
    forall t | t in other
      ensures delta >= 0.0 ==> Weight(w, t) <= Weight(w2, t)
      ensures delta <= 0.0 ==> Weight(w2, t) <= Weight(w, t)
    {
      ReweightedWeight(w, toks, delta, t);
    }
    if delta >= 0.0 { OccurrenceSumMonotone(w, w2, other); }
    if delta <= 0.0 { OccurrenceSumMonotone(w2, w, other); }
    if delta > 0.0 && exists t :: t in other && t in toks && Weight(w, t) < WeightClamp {
      var t :| t in other && t in toks && Weight(w, t) < WeightClamp;
      ReweightedWeight(w, toks, delta, t);
      OccurrenceSumStrict(w, w2, other, t);
    }
    if delta < 0.0 && exists t :: t in other && t in toks && -WeightClamp < Weight(w, t) {
      var t :| t in other && t in toks && -WeightClamp < Weight(w, t);
      ReweightedWeight(w, toks, delta, t);
      OccurrenceSumStrict(w2, w, other, t);
    }
  }

  // ---- records and the decision of record_feedback ----

  datatype Record = Record(status: Status, title: string, summary: string, timestamp: int, reason: Option<string>)

  datatype HistoryEntry = HistoryEntry(url: string, status: Status, timestamp: int, reason: Option<string>)

  /** `get_article_feedback`: the record with the label of its status. */
  datatype ArticleFeedback = ArticleFeedback(record: Record, relevance: Option<string>)

  /** `(reason or "").strip() or None`. */
  function CleanReason(reason: Option<string>): (r: Option<string>)
    ensures r.Some? ==> r.value != "" && Strip(r.value) == r.value
  {
    var s := Strip(reason.GetOr(""));
    StripIdempotent(reason.GetOr(""));
    if s == "" then None else Some(s)
  }

  /** What a `record_feedback` call does to the store. */
  datatype Decision =
    | Unchanged
      /** Store a record with this status and reason; move weights by `delta` when it is non-zero. */
    | Apply(status: Status, reason: Option<string>, delta: real)

  function Decide(existing: Option<Record>, relevance: Option<string>, reason: Option<string>): Decision {
    if relevance.None? || relevance.value == "" then Unchanged
    else match StatusOfLabel(relevance.value)
      case None => Unchanged
      case Some(status) =>
        var cleaned := if status != Low then None else CleanReason(reason);
        var previous := if existing.Some? then existing.value.status else Neutral;
        if previous == status then
          if status != Low then Unchanged
          else if CleanReason(existing.value.reason) == cleaned then Unchanged
          else Apply(status, cleaned, 0.0)
        else Apply(status, cleaned, StatusWeight(status) - StatusWeight(previous))
  }

  /** Missing, empty and unknown labels change nothing; neutral is never stored. */
  lemma DecideLabels(existing: Option<Record>, relevance: Option<string>, reason: Option<string>)
    ensures (relevance.None? || relevance.value == "" || StatusOfLabel(relevance.value).None?)
      ==> Decide(existing, relevance, reason) == Unchanged
    ensures Decide(existing, relevance, reason).Apply? ==>
      relevance.Some? && StatusOfLabel(relevance.value) == Some(Decide(existing, relevance, reason).status)
      && Decide(existing, relevance, reason).status != Neutral
  {
  }

  /** The stored reason is the trimmed reason for "low", and nothing otherwise. */
  lemma DecideReason(existing: Option<Record>, relevance: Option<string>, reason: Option<string>)
    ensures var d := Decide(existing, relevance, reason);
      d.Apply? ==> d.reason == (if d.status == Low then CleanReason(reason) else None)
    ensures var d := Decide(existing, relevance, reason);
      d.Apply? && d.reason.Some? ==> d.reason.value != "" && Strip(d.reason.value) == d.reason.value
  {
  }

  /**
   * Repeating the current status changes nothing, except a "low" with a new
   * trimmed reason, which rewrites the record but leaves the weights.
   */
  lemma DecideRepeat(r: Record, relevance: string, reason: Option<string>)
    requires StatusOfLabel(relevance) == Some(r.status)
    ensures r.status == High ==> Decide(Some(r), Some(relevance), reason) == Unchanged
    ensures r.status == Low && CleanReason(r.reason) == CleanReason(reason)
      ==> Decide(Some(r), Some(relevance), reason) == Unchanged
    ensures r.status == Low && CleanReason(r.reason) != CleanReason(reason)
      ==> Decide(Some(r), Some(relevance), reason) == Apply(Low, CleanReason(reason), 0.0)
  {
  }

  /** A change of status moves the weights by the difference of the two status weights, never by zero. */
  lemma DecideDelta(existing: Option<Record>, relevance: Option<string>, reason: Option<string>)
    ensures var d := Decide(existing, relevance, reason);
      var previous := if existing.Some? then existing.value.status else Neutral;
      d.Apply? ==> ((d.delta == 0.0 <==> d.status == previous)
        && (d.status != previous ==> d.delta == StatusWeight(d.status) - StatusWeight(previous)))
  {
  }

  /** `history[-HISTORY_LIMIT:]` once it is longer than the limit. */
  function Trimmed(h: seq<HistoryEntry>): (r: seq<HistoryEntry>)
    ensures |r| <= HistoryLimit
    ensures |h| <= HistoryLimit ==> r == h
    ensures |h| > HistoryLimit ==> r == h[|h| - HistoryLimit..]
  {
    if |h| > HistoryLimit then h[|h| - HistoryLimit..] else h
  }

  /** The contents of the store. */
  datatype StoreState = StoreState(weights: map<string, real>, records: map<string, Record>, history: seq<HistoryEntry>)

  ghost predicate ValidState(st: StoreState) {
    |st.history| <= HistoryLimit
    && Bounded(st.weights)
    && forall u | u in st.records :: st.records[u].status != Neutral
  }

  /** The status stored for a url, neutral when there is no record. */
  function StatusIn(records: map<string, Record>, url: string): Status {
    if url in records then records[url].status else Neutral
  }

  function ExistingIn(records: map<string, Record>, url: string): Option<Record> {
    if url in records then Some(records[url]) else None
  }

  /** The store after `record_feedback`, and whether it changed. */
  function Recorded(st: StoreState, url: string, title: string, summary: string,
                    relevance: Option<string>, reason: Option<string>, now: int): (StoreState, bool)
  {
    var d := Decide(ExistingIn(st.records, url), relevance, reason);
    if d == Unchanged then (st, false) else (Applied(st, url, title, summary, d, now), true)
  }

  /** The store once a decision to change the record applies. */
  function Applied(st: StoreState, url: string, title: string, summary: string, d: Decision, now: int): StoreState
    requires d.Apply?
  {
    var w := if d.delta != 0.0 then Reweighted(st.weights, Tokenize(title + " " + summary), d.delta) else st.weights;
    StoreState(w, st.records[url := Record(d.status, title, summary, now, d.reason)],
               Trimmed(st.history + [HistoryEntry(url, d.status, now, d.reason)]))
  }

  /**
   * Recording feedback keeps the store well formed, reports a change exactly
   * when the decision applies, and then the url carries the new record as the
   * newest history entry.
   */
  lemma RecordedSpec(st: StoreState, url: string, title: string, summary: string,
                     relevance: Option<string>, reason: Option<string>, now: int)
    requires ValidState(st)
    ensures ValidState(Recorded(st, url, title, summary, relevance, reason, now).0)
    ensures var (st', changed) := Recorded(st, url, title, summary, relevance, reason, now);
      (changed <==> Decide(ExistingIn(st.records, url), relevance, reason).Apply?)
      && (!changed ==> st' == st)
      && (changed ==> (url in st'.records && st'.records[url].timestamp == now
            && st'.history != [] && st'.history[|st'.history| - 1].url == url
            && (forall u | u in st.records && u != url :: u in st'.records && st'.records[u] == st.records[u])))
  {
    RecordedValid(st, url, title, summary, relevance, reason, now);
    var d := Decide(ExistingIn(st.records, url), relevance, reason);
    if d.Apply? {
      TrimmedLast(st.history, HistoryEntry(url, d.status, now, d.reason));
    }
  }

  /** The newest entry survives the trimming. */
  lemma TrimmedLast(h: seq<HistoryEntry>, e: HistoryEntry)
    ensures var t := Trimmed(h + [e]); t != [] && t[|t| - 1] == e
  {
  }

  /** Recording feedback keeps the store well formed. */
  lemma RecordedValid(st: StoreState, url: string, title: string, summary: string,
                      relevance: Option<string>, reason: Option<string>, now: int)
    requires ValidState(st)
    ensures ValidState(Recorded(st, url, title, summary, relevance, reason, now).0)
  {
    var d := Decide(ExistingIn(st.records, url), relevance, reason);
    DecideLabels(ExistingIn(st.records, url), relevance, reason);
    if d.Apply? {
      AppliedValid(st, url, title, summary, d, now);
    }
  }

  lemma AppliedValid(st: StoreState, url: string, title: string, summary: string, d: Decision, now: int)
    requires ValidState(st) && d.Apply? && d.status != Neutral
    ensures ValidState(Applied(st, url, title, summary, d, now))
  {
    ReweightedSpec(st.weights, Tokenize(title + " " + summary), d.delta);
  }

  /**
   * The learning direction, for any article `(title2, summary2)`: after a
   * successful "high" call no score is lower, after a "low" call none is
   * higher; and when the status really changed, an article sharing a token
   * of the marked one whose weight was not yet at that end of the clamp
   * moves strictly.
   */
  lemma RecordedMovesScore(st: StoreState, url: string, title: string, summary: string,
                           relevance: Option<string>, reason: Option<string>, now: int,
                           title2: string, summary2: string)
    requires ValidState(st)
    ensures var (st', changed) := Recorded(st, url, title, summary, relevance, reason, now);
      var d := Decide(ExistingIn(st.records, url), relevance, reason);
      changed && d.status == High ==> Score(st'.weights, title2, summary2) >= Score(st.weights, title2, summary2)
    ensures var (st', changed) := Recorded(st, url, title, summary, relevance, reason, now);
      var d := Decide(ExistingIn(st.records, url), relevance, reason);
      changed && d.status == Low ==> Score(st'.weights, title2, summary2) <= Score(st.weights, title2, summary2)
    ensures var (st', changed) := Recorded(st, url, title, summary, relevance, reason, now);
      var d := Decide(ExistingIn(st.records, url), relevance, reason);
      (changed && d.status == High && StatusIn(st.records, url) != High
       && exists t :: t in Tokenize(title2 + " " + summary2) && t in Tokenize(title + " " + summary)
                      && Weight(st.weights, t) < WeightClamp) ==>
        Score(st'.weights, title2, summary2) > Score(st.weights, title2, summary2)
    ensures var (st', changed) := Recorded(st, url, title, summary, relevance, reason, now);
      var d := Decide(ExistingIn(st.records, url), relevance, reason);
      (changed && d.status == Low && StatusIn(st.records, url) != Low
       && exists t :: t in Tokenize(title2 + " " + summary2) && t in Tokenize(title + " " + summary)
                      && -WeightClamp < Weight(st.weights, t)) ==>
        Score(st'.weights, title2, summary2) < Score(st.weights, title2, summary2)
  {
    var d := Decide(ExistingIn(st.records, url), relevance, reason);
    if d.Apply? {
      var toks := Tokenize(title + " " + summary);
      DecideSign(ExistingIn(st.records, url), relevance, reason);
      DecideDelta(ExistingIn(st.records, url), relevance, reason);
      var w' := Recorded(st, url, title, summary, relevance, reason, now).0.weights;
      assert w' == if d.delta != 0.0 then Reweighted(st.weights, toks, d.delta) else st.weights;
      ReweightedMovesScore(st.weights, toks, d.delta, Tokenize(title2 + " " + summary2));
    }
  }

  /** A move to "high" never lowers the weights and a move to "low" never raises them. */
  lemma DecideSign(existing: Option<Record>, relevance: Option<string>, reason: Option<string>)
    ensures var d := Decide(existing, relevance, reason);
      d.Apply? ==> (d.status == High ==> d.delta >= 0.0) && (d.status == Low ==> d.delta <= 0.0)
  {
  }

  class FeedbackStore {
    var weights: map<string, real>
    var records: map<string, Record>
    var history: seq<HistoryEntry>

    function State(): StoreState
      reads this
    {
      StoreState(weights, records, history)
    }

    ghost predicate Valid()
      reads this
    {
      ValidState(State())
    }

    constructor()
      ensures Valid()
      ensures State() == StoreState(map[], map[], [])
    {
      weights := map[];
      records := map[];
      history := [];
    }

    /** `get_status`: neutral for an unknown url. */
    function GetStatus(url: string): (s: Status)
      reads this
      ensures url !in records ==> s == Neutral
      ensures url in records ==> s == records[url].status
    {
      StatusIn(records, url)
    }

    /** `should_exclude`. */
    predicate ShouldExclude(url: string)
      reads this
    {
      GetStatus(url) == Low
    }

    /** An article is excluded iff it is stored with status "low". */
    lemma ShouldExcludeSpec(url: string)
      ensures ShouldExclude(url) <==> url in records && records[url].status == Low
    {
    }

    /** `get_article_feedback`: nothing for an unknown url, else the record and its label. */
    function GetArticleFeedback(url: string): (r: Option<ArticleFeedback>)
      reads this
      ensures r.None? <==> url !in records
      ensures r.Some? ==> r.value.record == records[url] && r.value.relevance == Label(records[url].status)
    {
      if url in records then Some(ArticleFeedback(records[url], Label(records[url].status))) else None
    }

    /** `score_article`. */
    function ScoreArticle(title: string, summary: string): real
      reads this
    {
      Score(weights, title, summary)
    }

    /**
     * `record_feedback`, with the current time given as `now`. The result
     * says whether the store changed.
     */
    method RecordFeedback(url: string, title: string, summary: string,
                          relevance: Option<string>, reason: Option<string>, now: int)
      returns (changed: bool)
      requires Valid()
      modifies this
      ensures (State(), changed) == Recorded(old(State()), url, title, summary, relevance, reason, now)
      ensures Valid()
    {
      RecordedValid(State(), url, title, summary, relevance, reason, now);
      var d := Decide(ExistingIn(records, url), relevance, reason);
      if d == Unchanged {
        changed := false;
      } else {
        ApplyDecision(url, title, summary, d, now);
        changed := true;
      }
    }

    /** The writes of `record_feedback` once the decision applies. */
    method ApplyDecision(url: string, title: string, summary: string, d: Decision, now: int)
      requires d.Apply?
      modifies this
      ensures State() == Applied(old(State()), url, title, summary, d, now)
    {
      if d.delta != 0.0 {
        ApplyDelta(Tokenize(title + " " + summary), d.delta);
      }
      records := records[url := Record(d.status, title, summary, now, d.reason)];
      history := Trimmed(history + [HistoryEntry(url, d.status, now, d.reason)]);
    }

    /** The loop over `tokens.items()` that moves each token's weight. */
    method ApplyDelta(toks: seq<string>, delta: real)
      modifies this
      ensures weights == Reweighted(old(weights), toks, delta)
      ensures records == old(records) && history == old(history)
    {
      var w0 := weights;
      var ds := Ordered.Distinct(toks);
      Ordered.FirstPerKeyDistinct(toks, Ordered.Id);
      var i := 0;
      while i < |ds|
        invariant 0 <= i <= |ds|
        invariant records == old(records) && history == old(history)
        invariant forall t :: t in weights <==> t in w0 || t in ds[..i]
        invariant forall t :: t in weights ==>
          weights[t] == if t in ds[..i] then Moved(w0, toks, delta, t) else w0[t]
      {
        var t := ds[i];
        assert t !in ds[..i] by {
          assert forall j :: 0 <= j < i ==> Ordered.Id(ds[j]) != Ordered.Id(ds[i]);
        }
        assert Weight(weights, t) == Weight(w0, t);
        weights := weights[t := Moved(w0, toks, delta, t)];
        assert ds[..i + 1] == ds[..i] + [t];
        i := i + 1;
      }
      assert ds[..i] == ds;
      var r := Reweighted(w0, toks, delta);
      forall t ensures t in ds <==> t in toks {
        Ordered.DistinctSpec(toks, t);
      }
      assert forall t :: t in r <==> t in w0 || t in toks by {
        forall t ensures t in r <==> t in w0 || t in toks {
          assert t in (set x | x in toks) <==> t in toks;
        }
      }
      assert weights.Keys == r.Keys;
      assert forall t :: t in r ==> weights[t] == r[t];
    }
  }
}
