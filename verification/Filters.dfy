/** The filter engine (`applyFilters`): the reviews that pass every active
    criterion, in their original order. */
module Filters {
  import opened Strings
  import opened Numbers
  import opened Reviews

  /** `currentFilter`. `"all"` (or an empty search) switches a criterion off. */
  datatype Filter = Filter(game: string, sentiment: string, rating: string, search: string)

  const All := "all"

  /** The criteria `resetFilters` restores. */
  const DefaultFilter := Filter(All, All, All, "")

  /** The predicate given to `rawData.filter`. The rating criterion compares
      `item.rating !== parseInt(rating)`, so a review whose rating is `NaN`
      never passes an active rating criterion. The search term is compared
      as stored; the input handler has already lower-cased it. */
  predicate Passes(r: Review, f: Filter) {
    && (f.game == All || r.gameName == f.game)
    && (f.sentiment == All || r.sentiment == f.sentiment)
    && (f.rating == All || (r.rating.Some? && ParseInt(f.rating) == r.rating))
    && (f.search == "" || Contains(Lower(r.reviewText), f.search))
  }

  /** `rawData.filter(item => Passes(item, f))`. */
  function Select(xs: seq<Review>, f: Filter): seq<Review> {
    if xs == [] then []
    else Select(xs[..|xs| - 1], f) + (if Passes(xs[|xs| - 1], f) then [xs[|xs| - 1]] else [])
  }

  /** `a` is `b` with some elements left out, the rest kept in order. */
  predicate IsSubsequence<T(==)>(a: seq<T>, b: seq<T>)
    decreases |b|
  {
    if a == [] then true
    else if b == [] then false
    else if a[|a| - 1] == b[|b| - 1] then IsSubsequence(a[..|a| - 1], b[..|b| - 1])
    else IsSubsequence(a, b[..|b| - 1])
  }

  lemma {:induction false} SubsequenceOfSelf<T>(a: seq<T>)
    ensures IsSubsequence(a, a)
    decreases |a|
  {
    if a != [] { SubsequenceOfSelf(a[..|a| - 1]); }
  }

  lemma {:induction false} SubsequenceExtend<T>(a: seq<T>, b: seq<T>, x: T)
    requires IsSubsequence(a, b)
    ensures IsSubsequence(a, b + [x])
    decreases |b|, 1
  {
    var b' := b + [x];
    assert b'[..|b'| - 1] == b;
    if a != [] && a[|a| - 1] == x {
      // The greedy match takes `x` for the last element of `a`; what is
      // left of `a` is still a subsequence of `b`.
      SubsequenceDropLast(a, b);
    }
  }

  lemma {:induction false} SubsequenceDropLast<T>(a: seq<T>, b: seq<T>)
    requires a != [] && IsSubsequence(a, b)
    ensures IsSubsequence(a[..|a| - 1], b)
    decreases |b|, 0
  {
    var b0 := b[..|b| - 1];
    if a[|a| - 1] == b[|b| - 1] {
      SubsequenceExtend(a[..|a| - 1], b0, b[|b| - 1]);
      assert b0 + [b[|b| - 1]] == b;
    } else {
      SubsequenceDropLast(a, b0);
      SubsequenceExtend(a[..|a| - 1], b0, b[|b| - 1]);
      assert b0 + [b[|b| - 1]] == b;
    }
  }

  /** The filtered list is an order-preserving subsequence of the input. */
  lemma {:induction false} SelectIsSubsequence(xs: seq<Review>, f: Filter)
    ensures IsSubsequence(Select(xs, f), xs)
    decreases |xs|
  {
    if xs != [] {
      var init := xs[..|xs| - 1];
      var x := xs[|xs| - 1];
      SelectIsSubsequence(init, f);
      var s := Select(init, f);
      assert xs == init + [x];
      if Passes(x, f) {
        assert (s + [x])[..|s|] == s;
      } else {
        assert Select(xs, f) == s;
        SubsequenceExtend(s, init, x);
      }
    }
  }

  /** Every review passes the criteria exactly as often in the filtered list
      as in the input, and a failing review does not appear at all. */
  lemma {:induction false} SelectMultiplicity(xs: seq<Review>, f: Filter)
    ensures forall r :: multiset(Select(xs, f))[r] == if Passes(r, f) then multiset(xs)[r] else 0
    decreases |xs|
  {
    if xs != [] {
      var init := xs[..|xs| - 1];
      SelectMultiplicity(init, f);
      assert xs == init + [xs[|xs| - 1]];
    }
  }

  /** Membership: a review is in the filtered list iff it is in the input and passes. */
  lemma SelectMembers(xs: seq<Review>, f: Filter)
    ensures forall r :: r in Select(xs, f) <==> r in xs && Passes(r, f)
  {
    SelectMultiplicity(xs, f);
    forall r ensures r in Select(xs, f) <==> r in xs && Passes(r, f) {
      assert r in Select(xs, f) <==> multiset(Select(xs, f))[r] > 0;
      assert r in xs <==> multiset(xs)[r] > 0;
    }
  }

  /** With every criterion switched off, the filter lets everything through. */
  lemma {:induction false} SelectDefault(xs: seq<Review>)
    ensures Select(xs, DefaultFilter) == xs
    decreases |xs|
  {
    if xs != [] {
      SelectDefault(xs[..|xs| - 1]);
    }
  }

  /** Filtering a list whose elements all pass leaves it unchanged. */
  lemma {:induction false} SelectAllPass(xs: seq<Review>, f: Filter)
    requires forall r :: r in xs ==> Passes(r, f)
    ensures Select(xs, f) == xs
    decreases |xs|
  {
    if xs != [] {
      SelectAllPass(xs[..|xs| - 1], f);
    }
  }

  /** Applying the same criteria twice is the same as applying them once. */
  lemma SelectIdempotent(xs: seq<Review>, f: Filter)
    ensures Select(Select(xs, f), f) == Select(xs, f)
  {
    SelectMembers(xs, f);
    SelectAllPass(Select(xs, f), f);
  }
}
