/**
 * Order-preserving list operations shared by the modules: a list
 * comprehension filter, the subsequence relation, and "first item per key",
 * the behaviour of filling an insertion-ordered dict only when the key is new.
 * Each list is defined from its last element, the way an appending loop
 * builds it.
 */
module Ordered {

  /** `[x for x in xs if p(x)]`. */
  function Filter<T>(xs: seq<T>, p: T -> bool): (r: seq<T>)
    ensures |r| <= |xs|
    ensures forall x :: x in r ==> x in xs && p(x)
  {
    if xs == [] then []
    else Filter(xs[..|xs| - 1], p) + (if p(xs[|xs| - 1]) then [xs[|xs| - 1]] else [])
  }

  lemma {:induction false} FilterComplete<T>(xs: seq<T>, p: T -> bool, x: T)
    requires x in xs && p(x)
    ensures x in Filter(xs, p)
  {
    if xs[|xs| - 1] != x {
      assert xs == xs[..|xs| - 1] + [xs[|xs| - 1]];
      FilterComplete(xs[..|xs| - 1], p, x);
    }
  }

  /** One more element is kept exactly when it satisfies the predicate. */
  lemma FilterSnoc<T>(xs: seq<T>, x: T, p: T -> bool)
    ensures Filter(xs + [x], p) == Filter(xs, p) + (if p(x) then [x] else [])
  {
    assert (xs + [x])[..|xs + [x]| - 1] == xs;
  }

  /** A predicate and its complement split a list's elements between them. */
  lemma {:induction false} FilterSplit<T>(xs: seq<T>, p: T -> bool, q: T -> bool)
    requires forall x :: q(x) == !p(x)
    ensures multiset(Filter(xs, p)) + multiset(Filter(xs, q)) == multiset(xs)
  {
    if xs != [] {
      var xp := xs[..|xs| - 1];
      FilterSplit(xp, p, q);
      assert xs == xp + [xs[|xs| - 1]];
    }
  }

  /** Predicates that agree on a list's elements keep the same elements. */
  lemma {:induction false} FilterAgree<T>(xs: seq<T>, p: T -> bool, q: T -> bool)
    requires forall x :: x in xs ==> p(x) == q(x)
    ensures Filter(xs, p) == Filter(xs, q)
  {
    if xs != [] {
      var xp := xs[..|xs| - 1];
      assert forall x :: x in xp ==> x in xs;
      FilterAgree(xp, p, q);
    }
  }

  /** The index of the first element satisfying `p`, or `|xs|` when none does. */
  function FirstIndex<T>(xs: seq<T>, p: T -> bool): (i: nat)
    ensures i <= |xs|
    ensures i < |xs| ==> p(xs[i])
    ensures forall k :: 0 <= k < i ==> !p(xs[k])
  {
    if xs == [] then 0
    else if p(xs[0]) then 0
    else 1 + FirstIndex(xs[1..], p)
  }

  /** A left-to-right search for the first element satisfying `p`. */
  method FindFirst<T>(xs: seq<T>, p: T -> bool) returns (i: nat)
    ensures i == FirstIndex(xs, p)
  {
    i := 0;
    while i < |xs| && !p(xs[i])
      invariant i <= |xs|
      invariant FirstIndex(xs, p) == i + FirstIndex(xs[i..], p)
    {
      assert xs[i..][1..] == xs[i + 1..];
      i := i + 1;
    }
  }

  /** An element of the list is among the filtered ones exactly when it satisfies the predicate. */
  lemma FilterMember<T>(xs: seq<T>, p: T -> bool, x: T)
    requires x in xs
    ensures x in Filter(xs, p) <==> p(x)
  {
    if p(x) {
      FilterComplete(xs, p, x);
    }
  }

  /** A prefix one longer is the prefix and the next element. */
  lemma TakeSnoc<T>(xs: seq<T>, j: nat)
    requires j < |xs|
    ensures xs[..j + 1] == xs[..j] + [xs[j]]
  {
  }

  /** One step of the second pass: an element joins the back exactly when it was not collected. */
  lemma BackStep<T>(kept: seq<T>, first: T -> bool, rest: T -> bool, front: seq<T>, back: seq<T>, j: nat)
    requires forall x :: rest(x) == !first(x)
    requires j < |kept| && front == Filter(kept, first) && back == Filter(kept[..j], rest)
    ensures (if kept[j] !in front then back + [kept[j]] else back) == Filter(kept[..j + 1], rest)
  {
    TakeSnoc(kept, j);
    FilterSnoc(kept[..j], kept[j], rest);
    FilterMember(kept, first, kept[j]);
  }

  /** One pass keeping the elements that satisfy `keep` and collecting those that also satisfy `first`. */
  method KeepCollect<T>(items: seq<T>, keep: T -> bool, first: T -> bool) returns (kept: seq<T>, front: seq<T>)
    ensures kept == Filter(items, keep) && front == Filter(kept, first)
  {
    kept, front := [], [];
    for i := 0 to |items|
      invariant kept == Filter(items[..i], keep)
      invariant front == Filter(kept, first)
    {
      var item := items[i];
      assert items[..i + 1] == items[..i] + [item];
      FilterSnoc(items[..i], item, keep);
      if !keep(item) {
        continue;
      }
      FilterSnoc(kept, item, first);
      kept := kept + [item];
      if first(item) {
        front := front + [item];
      }
    }
    assert items[..|items|] == items;
  }

  /**
   * Keeps the elements satisfying `keep` with those that satisfy `first`
   * moved to the front: the collected ones, then the kept elements that are
   * not among them. Both groups stay in their original order.
   */
  method KeepFrontFirst<T(==, !new)>(items: seq<T>, keep: T -> bool, first: T -> bool, rest: T -> bool)
    returns (r: seq<T>)
    requires forall x :: rest(x) == !first(x)
    ensures r == Filter(Filter(items, keep), first) + Filter(Filter(items, keep), rest)
  {
    var kept, front := KeepCollect(items, keep, first);
    var back: seq<T> := [];
    for j := 0 to |kept|
      invariant back == Filter(kept[..j], rest)
    {
      BackStep(kept, first, rest, front, back, j);
      if kept[j] !in front {
        back := back + [kept[j]];
      }
    }
    assert kept[..|kept|] == kept;
    r := front + back;
  }

  lemma {:induction false} FilterAppend<T>(a: seq<T>, b: seq<T>, p: T -> bool)
    ensures Filter(a + b, p) == Filter(a, p) + Filter(b, p)
    decreases |b|
  {
    if b == [] {
      assert a + b == a;
    } else {
      assert (a + b)[..|a + b| - 1] == a + b[..|b| - 1];
      FilterAppend(a, b[..|b| - 1], p);
    }
  }

  /** `ys` is obtained from `xs` by deleting elements. */
  predicate IsSubseq<T(==)>(ys: seq<T>, xs: seq<T>)
    decreases |xs|
  {
    if xs == [] then ys == []
    else
      (ys != [] && ys[|ys| - 1] == xs[|xs| - 1] && IsSubseq(ys[..|ys| - 1], xs[..|xs| - 1]))
      || IsSubseq(ys, xs[..|xs| - 1])
  }

  lemma {:induction false} SubseqMembers<T>(ys: seq<T>, xs: seq<T>)
    requires IsSubseq(ys, xs)
    ensures |ys| <= |xs|
    ensures forall y :: y in ys ==> y in xs
    decreases |xs|
  {
    if xs != [] {
      var xp := xs[..|xs| - 1];
      assert xs == xp + [xs[|xs| - 1]];
      if ys != [] && ys[|ys| - 1] == xs[|xs| - 1] && IsSubseq(ys[..|ys| - 1], xp) {
        SubseqMembers(ys[..|ys| - 1], xp);
        assert ys == ys[..|ys| - 1] + [ys[|ys| - 1]];
      } else {
        SubseqMembers(ys, xp);
      }
    }
  }

  lemma {:induction false} SubseqRefl<T>(xs: seq<T>)
    ensures IsSubseq(xs, xs)
    decreases |xs|
  {
    if xs != [] {
      SubseqRefl(xs[..|xs| - 1]);
    }
  }

  lemma {:induction false} SubseqSnoc<T>(ys: seq<T>, xs: seq<T>, x: T, keep: bool)
    requires IsSubseq(ys, xs)
    ensures IsSubseq(ys + (if keep then [x] else []), xs + [x])
  {
    var xs' := xs + [x];
    assert xs'[..|xs'| - 1] == xs;
    if keep {
      var ys' := ys + [x];
      assert ys'[..|ys'| - 1] == ys;
    } else {
      assert ys + [] == ys;
    }
  }

  lemma {:induction false} FilterSubseq<T>(xs: seq<T>, p: T -> bool)
    ensures IsSubseq(Filter(xs, p), xs)
  {
    if xs != [] {
      var xp := xs[..|xs| - 1];
      FilterSubseq(xp, p);
      SubseqSnoc(Filter(xp, p), xp, xs[|xs| - 1], p(xs[|xs| - 1]));
      assert xp + [xs[|xs| - 1]] == xs;
    }
  }

  /** The keys of the items of `xs`. */
  function Keys<T, K(==)>(xs: seq<T>, key: T -> K): set<K> {
    set i | 0 <= i < |xs| :: key(xs[i])
  }

  lemma KeysSnoc<T, K>(xs: seq<T>, x: T, key: T -> K)
    ensures Keys(xs + [x], key) == Keys(xs, key) + {key(x)}
  {
    var ys := xs + [x];
    assert forall i :: 0 <= i < |xs| ==> ys[i] == xs[i];
    assert ys[|xs|] == x;
  }

  lemma KeysAppend<T, K>(xs: seq<T>, ys: seq<T>, key: T -> K)
    ensures Keys(xs + ys, key) == Keys(xs, key) + Keys(ys, key)
  {
    var zs := xs + ys;
    forall k | k in Keys(ys, key) ensures k in Keys(zs, key) {
      var i :| 0 <= i < |ys| && key(ys[i]) == k;
      assert zs[|xs| + i] == ys[i];
    }
    forall k | k in Keys(zs, key) ensures k in Keys(xs, key) + Keys(ys, key) {
      var i :| 0 <= i < |zs| && key(zs[i]) == k;
      if i >= |xs| {
        assert zs[i] == ys[i - |xs|];
      } else {
        assert zs[i] == xs[i];
      }
    }
    forall k | k in Keys(xs, key) ensures k in Keys(zs, key) {
      var i :| 0 <= i < |xs| && key(xs[i]) == k;
      assert zs[i] == xs[i];
    }
  }

  /**
   * The first item for each key, in input order: an item is kept when no
   * earlier item has its key.
   */
  function FirstPerKey<T, K(==)>(xs: seq<T>, key: T -> K): seq<T> {
    if xs == [] then []
    else
      var prefix := xs[..|xs| - 1];
      var x := xs[|xs| - 1];
      FirstPerKey(prefix, key) + (if key(x) in Keys(prefix, key) then [] else [x])
  }

  /** One more item: it is kept exactly when its key is not among those seen, and its key is then seen. */
  lemma FirstPerKeyStep<T, K>(xs: seq<T>, x: T, key: T -> K, kept: seq<T>, seen: set<K>)
    requires kept == FirstPerKey(xs, key) && seen == Keys(xs, key)
    ensures FirstPerKey(xs + [x], key) == if key(x) in seen then kept else kept + [x]
    ensures Keys(xs + [x], key) == seen + {key(x)}
  {
    assert (xs + [x])[..|xs|] == xs;
    KeysSnoc(xs, x, key);
  }

  /**
   * The dictionary loop behind `FirstPerKey`: a set of the keys seen so far,
   * and each item appended when its key is new.
   */
  method KeepFirstPerKey<T, K(==)>(xs: seq<T>, key: T -> K) returns (kept: seq<T>)
    ensures kept == FirstPerKey(xs, key)
  {
    kept := [];
    var seen: set<K> := {};
    for i := 0 to |xs|
      invariant kept == FirstPerKey(xs[..i], key)
      invariant seen == Keys(xs[..i], key)
    {
      FirstPerKeyStep(xs[..i], xs[i], key, kept, seen);
      assert xs[..i + 1] == xs[..i] + [xs[i]];
      if key(xs[i]) !in seen {
        kept := kept + [xs[i]];
        seen := seen + {key(xs[i])};
      }
    }
    assert xs[..|xs|] == xs;
  }

  predicate DistinctKeys<T, K(==)>(xs: seq<T>, key: T -> K) {
    forall i, j :: 0 <= i < j < |xs| ==> key(xs[i]) != key(xs[j])
  }

  /** Items with distinct keys are distinct items. */
  lemma DistinctKeysDistinctItems<T, K>(xs: seq<T>, key: T -> K)
    requires DistinctKeys(xs, key)
    ensures DistinctKeys(xs, Id)
  {
    forall i, j | 0 <= i < j < |xs| ensures Id(xs[i]) != Id(xs[j]) {
      assert key(xs[i]) != key(xs[j]);
    }
  }

  lemma TwoOccurrences<T>(xs: seq<T>, i: nat, j: nat)
    requires i < j < |xs| && xs[i] == xs[j]
    ensures multiset(xs)[xs[i]] >= 2
  {
    assert xs == xs[..j] + xs[j..];
    assert xs[i] in xs[..j];
    assert xs[j] in xs[j..];
    assert multiset(xs) == multiset(xs[..j]) + multiset(xs[j..]);
  }

  /** Reordering a list keeps its keys distinct. */
  lemma DistinctKeysPermutation<T, K>(a: seq<T>, b: seq<T>, key: T -> K)
    requires multiset(a) == multiset(b) && DistinctKeys(b, key)
    ensures DistinctKeys(a, key)
  {
    forall i, j | 0 <= i < j < |a| ensures key(a[i]) != key(a[j]) {
      var x, y := a[i], a[j];
      assert x in multiset(b) && y in multiset(b);
      if x == y {
        TwoOccurrences(a, i, j);
        DistinctKeysDistinctItems(b, key);
        DistinctCount(b, x);
      } else {
        var p :| 0 <= p < |b| && b[p] == x;
        var q :| 0 <= q < |b| && b[q] == y;
        if p < q {
          assert key(b[p]) != key(b[q]);
        } else {
          assert key(b[q]) != key(b[p]);
        }
      }
    }
  }

  /** The kept items cover every key of the input, and no other key. */
  lemma {:induction false} FirstPerKeyKeys<T, K>(xs: seq<T>, key: T -> K)
    ensures Keys(FirstPerKey(xs, key), key) == Keys(xs, key)
  {
    if xs != [] {
      var prefix := xs[..|xs| - 1];
      var x := xs[|xs| - 1];
      FirstPerKeyKeys(prefix, key);
      assert xs == prefix + [x];
      KeysSnoc(prefix, x, key);
      if key(x) !in Keys(prefix, key) {
        KeysSnoc(FirstPerKey(prefix, key), x, key);
      } else {
        var r := FirstPerKey(prefix, key);
        assert FirstPerKey(xs, key) == r + [];
        assert r + [] == r;
        assert Keys(xs, key) == Keys(prefix, key);
      }
    }
  }

  /** No two kept items share a key. */
  lemma {:induction false} FirstPerKeyDistinct<T, K>(xs: seq<T>, key: T -> K)
    ensures DistinctKeys(FirstPerKey(xs, key), key)
  {
    if xs != [] {
      var prefix := xs[..|xs| - 1];
      var x := xs[|xs| - 1];
      var r := FirstPerKey(prefix, key);
      FirstPerKeyDistinct(prefix, key);
      FirstPerKeyKeys(prefix, key);
      if key(x) !in Keys(prefix, key) {
        var r' := r + [x];
        forall i, j | 0 <= i < j < |r'| ensures key(r'[i]) != key(r'[j]) {
          if j == |r| {
            assert key(r[i]) in Keys(r, key);
          }
        }
      } else {
        assert FirstPerKey(xs, key) == r + [];
      }
    }
  }

  /** The kept items appear in the input in the same order. */
  lemma {:induction false} FirstPerKeySubseq<T, K>(xs: seq<T>, key: T -> K)
    ensures IsSubseq(FirstPerKey(xs, key), xs)
  {
    if xs != [] {
      var prefix := xs[..|xs| - 1];
      var x := xs[|xs| - 1];
      FirstPerKeySubseq(prefix, key);
      SubseqSnoc(FirstPerKey(prefix, key), prefix, x, key(x) !in Keys(prefix, key));
      assert prefix + [x] == xs;
    }
  }

  /** Every item whose key is new at its position is kept. */
  lemma {:induction false} FirstPerKeyKeepsFirst<T, K>(xs: seq<T>, key: T -> K, i: nat)
    requires i < |xs| && key(xs[i]) !in Keys(xs[..i], key)
    ensures xs[i] in FirstPerKey(xs, key)
  {
    var prefix := xs[..|xs| - 1];
    if i == |xs| - 1 {
      assert prefix == xs[..i];
    } else {
      assert prefix[..i] == xs[..i];
      FirstPerKeyKeepsFirst(prefix, key, i);
    }
  }

  function Id<T>(x: T): T { x }

  /** The distinct elements in first-occurrence order: the keys of an insertion-ordered dict. */
  function Distinct<T(==)>(xs: seq<T>): seq<T> {
    FirstPerKey(xs, Id)
  }

  lemma KeysIsMembership<T>(xs: seq<T>, t: T)
    ensures t in Keys(xs, Id) <==> t in xs
  {
    if t in xs {
      var i :| 0 <= i < |xs| && xs[i] == t;
      assert Id(xs[i]) == t;
    }
  }

  /** Each element appears once among the distinct elements, and every element does. */
  lemma DistinctSpec<T>(xs: seq<T>, t: T)
    ensures t in Distinct(xs) <==> t in xs
    ensures multiset(Distinct(xs))[t] == if t in xs then 1 else 0
  {
    var ds := Distinct(xs);
    FirstPerKeyKeys(xs, Id);
    FirstPerKeyDistinct(xs, Id);
    KeysIsMembership(xs, t);
    KeysIsMembership(ds, t);
    DistinctCount(ds, t);
  }

  /** The pieces `f` gives for the elements, concatenated in order. */
  function ConcatMap<T, U>(xs: seq<T>, f: T -> seq<U>): seq<U> {
    if xs == [] then []
    else ConcatMap(xs[..|xs| - 1], f) + f(xs[|xs| - 1])
  }

  lemma ConcatMapSnoc<T, U>(xs: seq<T>, x: T, f: T -> seq<U>)
    ensures ConcatMap(xs + [x], f) == ConcatMap(xs, f) + f(x)
  {
    assert (xs + [x])[..|xs|] == xs;
  }

  lemma {:induction false} ConcatMapAppend<T, U>(a: seq<T>, b: seq<T>, f: T -> seq<U>)
    ensures ConcatMap(a + b, f) == ConcatMap(a, f) + ConcatMap(b, f)
    decreases |b|
  {
    if b == [] {
      assert a + b == a;
    } else {
      var b', last := b[..|b| - 1], b[|b| - 1];
      assert a + b == (a + b') + [last];
      assert b == b' + [last];
      ConcatMapSnoc(a + b', last, f);
      ConcatMapAppend(a, b', f);
      ConcatMapSnoc(b', last, f);
    }
  }

  /** One more element is kept exactly when it is new. */
  lemma DistinctSnoc<T>(xs: seq<T>, x: T)
    ensures Distinct(xs + [x]) == if x in xs then Distinct(xs) else Distinct(xs) + [x]
  {
    FirstPerKeyStep(xs, x, Id, FirstPerKey(xs, Id), Keys(xs, Id));
    KeysIsMembership(xs, x);
  }

  lemma {:induction false} DistinctCount<T>(ds: seq<T>, t: T)
    requires DistinctKeys(ds, Id)
    ensures multiset(ds)[t] == if t in ds then 1 else 0
  {
    if ds != [] {
      var p := ds[..|ds| - 1];
      assert ds == p + [ds[|ds| - 1]];
      assert DistinctKeys(p, Id);
      DistinctCount(p, t);
      if ds[|ds| - 1] == t {
        assert t !in p;
      }
    }
  }
}
