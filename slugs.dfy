/**
 * The shop's pre-save hook for products: a product saved without a slug
 * gets the first of `base`, `base-1`, `base-2`, ... that no other product
 * uses, and a product saved without a price gets a random initial one.
 * The products already stored are a map from primary key to slug;
 * `slugify` is a parameter and the random choices are nondeterministic.
 */
module Slugs {
  import opened Text

  /** The `k`-th slug tried: the base itself, then `base-k`. */
  function Candidate(base: string, k: nat): string {
    if k == 0 then base else base + "-" + NatToString(k)
  }

  /** Different counters never give the same slug, so each try is new. */
  lemma CandidateInjective(base: string, j: nat, k: nat)
    requires Candidate(base, j) == Candidate(base, k)
    ensures j == k
  {
    if j != 0 && k != 0 {
      var cj, ck := Candidate(base, j), Candidate(base, k);
      assert cj[|base| + 1..] == NatToString(j);
      assert ck[|base| + 1..] == NatToString(k);
      NatToStringInjective(j, k);
    }
  }

  /** The slugs of the stored products other than the one with key `pk`. */
  function OtherSlugs(db: map<int, string>, pk: int): (taken: set<string>)
    ensures forall p :: p in db && p != pk ==> db[p] in taken
    ensures forall s :: s in taken ==> exists p :: p in db && p != pk && db[p] == s
  {
    set p | p in db && p != pk :: db[p]
  }

  lemma {:induction false} SubsetSize<T>(a: set<T>, b: set<T>)
    requires a <= b
    ensures |a| <= |b|
    decreases |a|
  {
    if a != {} {
      var x :| x in a;
      SubsetSize(a - {x}, b - {x});
    }
  }

  /**
   * The de-collision loop: tries `base`, `base-1`, ... and stops at the
   * first slug not in `taken`; `counter` is how many suffixes were used.
   */
  method FreeSlug(base: string, taken: set<string>) returns (slug: string, counter: nat)
    ensures slug == Candidate(base, counter) && slug !in taken
    ensures forall k :: 0 <= k < counter ==> Candidate(base, k) in taken
    ensures counter <= |taken|
  {
    slug := base;
    counter := 0;
    ghost var tried: set<string> := {};
    while slug in taken
      invariant slug == Candidate(base, counter)
      invariant forall k :: 0 <= k < counter ==> Candidate(base, k) in taken
      invariant tried <= taken && |tried| == counter
      invariant forall s :: s in tried ==> exists k :: 0 <= k < counter && s == Candidate(base, k)
      decreases |taken| - |tried|
    {
      if slug in tried {
        var k :| 0 <= k < counter && slug == Candidate(base, k);
        CandidateInjective(base, k, counter);
        assert false;
      }
      tried := tried + {slug};
      SubsetSize(tried, taken);
      counter := counter + 1;
      slug := Candidate(base, counter);
    }
    SubsetSize(tried, taken);
  }

  /** What `secrets.token_hex(4)` can return: eight lower-case hex digits. */
  predicate IsHexToken(t: string) {
    |t| == 8 && forall c :: c in t ==> '0' <= c <= '9' || 'a' <= c <= 'f'
  }

  /** What `random.randrange(10000, 100001, 1000)` can return. */
  predicate IsInitialPrice(p: nat) {
    10000 <= p <= 100000 && p % 1000 == 0
  }

  class Product {
    var pk: int
    var name: string
    var slug: string
    var price: nat

    constructor (pk: int, name: string, slug: string, price: nat)
      ensures this.pk == pk && this.name == name && this.slug == slug && this.price == price
    {
      this.pk := pk;
      this.name := name;
      this.slug := slug;
      this.price := price;
    }

    /** `Product.assign_initial_price`: a random price, only when there is none. */
    method AssignInitialPrice()
      modifies this
      ensures pk == old(pk) && name == old(name) && slug == old(slug)
      ensures old(price) != 0 ==> price == old(price)
      ensures old(price) == 0 ==> IsInitialPrice(price)
    {
      if price == 0 {
        assert IsInitialPrice(10000);
        var p :| IsInitialPrice(p);
        price := p;
      }
    }

    /**
     * `ensure_slug`: a product without a slug gets the first candidate no
     * other stored product uses, built on `slugify(name)` or, when that is
     * empty, on a random hex token; a slug already set is kept. Then the
     * initial price is assigned when the price is 0.
     */
    method EnsureSlug(db: map<int, string>, slugify: string -> string)
      modifies this
      ensures pk == old(pk) && name == old(name)
      ensures old(slug) != "" ==> slug == old(slug)
      ensures old(slug) == "" ==> slug !in OtherSlugs(db, pk)
      ensures old(slug) == "" ==>
        exists base, counter: nat ::
          && (base == slugify(name) || (slugify(name) == "" && IsHexToken(base)))
          && (slugify(name) != "" ==> base == slugify(name))
          && slug == Candidate(base, counter)
          && (forall k :: 0 <= k < counter ==> Candidate(base, k) in OtherSlugs(db, pk))
      ensures old(price) != 0 ==> price == old(price)
      ensures old(price) == 0 ==> IsInitialPrice(price)
    {
      if slug == "" {
        var base := slugify(name);
        if base == "" {
          assert IsHexToken("00000000");
          var token :| IsHexToken(token);
          base := token;
        }
        var counter;
        slug, counter := FreeSlug(base, OtherSlugs(db, pk));
      }
      AssignInitialPrice();
    }
  }
}
