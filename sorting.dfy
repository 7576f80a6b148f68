/**
 * Python's `sorted`/`list.sort` as a stable insertion sort over an ordering
 * `le`, where `le(a, b)` means "`a` may be placed before `b`". A sort with
 * `key=k, reverse=True` is the ordering `le(a, b) == k(a) >= k(b)`; Python
 * keeps equal keys in their original order in both directions.
 */
module StableSort {

  ghost predicate Total<T(!new)>(le: (T, T) -> bool) {
    forall a, b :: le(a, b) || le(b, a)
  }

  ghost predicate Transitive<T(!new)>(le: (T, T) -> bool) {
    forall a, b, c :: le(a, b) && le(b, c) ==> le(a, c)
  }

  predicate Sorted<T(!new)>(xs: seq<T>, le: (T, T) -> bool) {
    forall i, j :: 0 <= i < j < |xs| ==> le(xs[i], xs[j])
  }

  /** `a` and `b` compare equal: neither must precede the other. */
  predicate Equiv<T(!new)>(le: (T, T) -> bool, a: T, b: T) {
    le(a, b) && le(b, a)
  }

  /** The elements of `xs` that compare equal to `e`, in their order. */
  function EquivClass<T(!new)>(xs: seq<T>, le: (T, T) -> bool, e: T): seq<T> {
    if xs == [] then []
    else (if Equiv(le, xs[0], e) then [xs[0]] else []) + EquivClass(xs[1..], le, e)
  }

  /** Puts `x` in front of the first element it may precede. */
  function Insert<T(!new)>(x: T, ys: seq<T>, le: (T, T) -> bool): seq<T> {
    if ys == [] || le(x, ys[0]) then [x] + ys
    else [ys[0]] + Insert(x, ys[1..], le)
  }

  function Sort<T(!new)>(xs: seq<T>, le: (T, T) -> bool): seq<T> {
    if xs == [] then [] else Insert(xs[0], Sort(xs[1..], le), le)
  }

  lemma {:induction false} InsertPermutation<T(!new)>(x: T, ys: seq<T>, le: (T, T) -> bool)
    ensures multiset(Insert(x, ys, le)) == multiset{x} + multiset(ys)
    ensures |Insert(x, ys, le)| == |ys| + 1
  {
    if ys != [] && !le(x, ys[0]) {
      InsertPermutation(x, ys[1..], le);
      assert ys == [ys[0]] + ys[1..];
    }
  }

  /** Sorting rearranges its input and nothing more. */
  lemma {:induction false} SortPermutation<T(!new)>(xs: seq<T>, le: (T, T) -> bool)
    ensures multiset(Sort(xs, le)) == multiset(xs)
    ensures |Sort(xs, le)| == |xs|
  {
    if xs != [] {
      SortPermutation(xs[1..], le);
      InsertPermutation(xs[0], Sort(xs[1..], le), le);
      assert xs == [xs[0]] + xs[1..];
    }
  }

  lemma {:induction false} InsertSorted<T(!new)>(x: T, ys: seq<T>, le: (T, T) -> bool)
    requires Total(le) && Transitive(le)
    requires Sorted(ys, le)
    ensures Sorted(Insert(x, ys, le), le)
  {
    if ys != [] && !le(x, ys[0]) {
      var tail := ys[1..];
      InsertSorted(x, tail, le);
      InsertPermutation(x, tail, le);
      var r := Insert(x, tail, le);
      forall k | 0 <= k < |r| ensures le(ys[0], r[k]) {
        assert r[k] in multiset(r);
        assert r[k] == x || r[k] in tail;
      }
    }
  }

  /** The result is ordered when `le` is a total preorder. */
  lemma {:induction false} SortSorted<T(!new)>(xs: seq<T>, le: (T, T) -> bool)
    requires Total(le) && Transitive(le)
    ensures Sorted(Sort(xs, le), le)
  {
    if xs != [] {
      SortSorted(xs[1..], le);
      InsertSorted(xs[0], Sort(xs[1..], le), le);
    }
  }

  lemma {:induction false} EquivClassAppend<T(!new)>(a: seq<T>, b: seq<T>, le: (T, T) -> bool, e: T)
    ensures EquivClass(a + b, le, e) == EquivClass(a, le, e) + EquivClass(b, le, e)
  {
    if a == [] {
      assert a + b == b;
    } else {
      assert (a + b)[0] == a[0];
      assert (a + b)[1..] == a[1..] + b;
      EquivClassAppend(a[1..], b, le, e);
    }
  }

  lemma {:induction false} InsertEquivClass<T(!new)>(x: T, ys: seq<T>, le: (T, T) -> bool, e: T)
    requires Transitive(le)
    ensures EquivClass(Insert(x, ys, le), le, e)
         == (if Equiv(le, x, e) then [x] else []) + EquivClass(ys, le, e)
  {
    if ys == [] || le(x, ys[0]) {
      EquivClassAppend([x], ys, le, e);
    } else {
      var y, tail := ys[0], ys[1..];
      var ex := if Equiv(le, x, e) then [x] else [];
      var ey := if Equiv(le, y, e) then [y] else [];
      // `x` does not precede `y`, so the two cannot both be equivalent to `e`
      assert ex == [] || ey == [];
      assert EquivClass([y], le, e) == ey by {
        assert [y][1..] == [];
      }
      calc {
        EquivClass(Insert(x, ys, le), le, e);
        EquivClass([y] + Insert(x, tail, le), le, e);
        { EquivClassAppend([y], Insert(x, tail, le), le, e); }
        ey + EquivClass(Insert(x, tail, le), le, e);
        { InsertEquivClass(x, tail, le, e); }
        ey + (ex + EquivClass(tail, le, e));
        ex + (ey + EquivClass(tail, le, e));
        { EquivClassAppend([y], tail, le, e); assert ys == [y] + tail; }
        ex + EquivClass(ys, le, e);
      }
    }
  }

  /** Stability: elements that compare equal keep their relative order. */
  lemma {:induction false} SortStable<T(!new)>(xs: seq<T>, le: (T, T) -> bool, e: T)
    requires Transitive(le)
    ensures EquivClass(Sort(xs, le), le, e) == EquivClass(xs, le, e)
  {
    if xs != [] {
      SortStable(xs[1..], le, e);
      InsertEquivClass(xs[0], Sort(xs[1..], le), le, e);
    }
  }

  /** The ordering Python uses for `key=k, reverse=True` on an integer key. */
  function DescendingBy<T(!new)>(k: T -> int): (T, T) -> bool {
    (a: T, b: T) => k(a) >= k(b)
  }

  lemma DescendingByPreorder<T(!new)>(k: T -> int)
    ensures Total(DescendingBy(k)) && Transitive(DescendingBy(k))
  {
  }

  /**
   * The ordering Python uses for `key=lambda x: (k1(x), k2(x)), reverse=True`:
   * tuples compare by their first component, then by the second.
   */
  function DescendingByPair<T(!new)>(k1: T -> real, k2: T -> int): (T, T) -> bool {
    (a: T, b: T) => k1(a) > k1(b) || (k1(a) == k1(b) && k2(a) >= k2(b))
  }

  lemma DescendingByPairPreorder<T(!new)>(k1: T -> real, k2: T -> int)
    ensures Total(DescendingByPair(k1, k2)) && Transitive(DescendingByPair(k1, k2))
  {
  }
}
