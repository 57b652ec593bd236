/** Running totals and filters over sequences, the shape of every
    `sum(f(r) for r in records)` and every `+=` loop in the report code.
    Both are defined from the END of the sequence so that one unfolding
    step is one more iteration of a left-to-right Python loop. */
module Sums {

  /** `sum(f(x) for x in s)` in exact arithmetic. */
  function Sum<T>(s: seq<T>, f: T -> real): real
  {
    if |s| == 0 then 0.0 else Sum(s[..|s| - 1], f) + f(s[|s| - 1])
  }

  /** `[x for x in s if p(x)]`. */
  function Filter<T>(s: seq<T>, p: T -> bool): (r: seq<T>)
    ensures |r| <= |s|
  {
    if |s| == 0 then []
    else Filter(s[..|s| - 1], p) + (if p(s[|s| - 1]) then [s[|s| - 1]] else [])
  }

  /** Everything the filter keeps comes from `s` and satisfies `p`. */
  lemma {:induction false} FilterSound<T>(s: seq<T>, p: T -> bool)
    ensures forall i :: 0 <= i < |Filter(s, p)| ==> Filter(s, p)[i] in s && p(Filter(s, p)[i])
    decreases |s|
  {
    if |s| > 0 {
      var init := s[..|s| - 1];
      FilterSound(init, p);
      forall i | 0 <= i < |Filter(s, p)| ensures Filter(s, p)[i] in s && p(Filter(s, p)[i]) {
        if i < |Filter(init, p)| {
          assert Filter(s, p)[i] == Filter(init, p)[i];
          assert Filter(init, p)[i] in init;
        }
      }
    }
  }

  /** Everything in `s` that satisfies `p` is kept. */
  lemma {:induction false} FilterComplete<T>(s: seq<T>, p: T -> bool, i: int)
    requires 0 <= i < |s| && p(s[i])
    ensures s[i] in Filter(s, p)
    decreases |s|
  {
    var init := s[..|s| - 1];
    if i < |s| - 1 {
      FilterComplete(init, p, i);
      assert s[i] == init[i];
    }
  }

  /** The filter keeps nothing exactly when no element satisfies `p`. */
  lemma {:induction false} FilterEmpty<T>(s: seq<T>, p: T -> bool)
    ensures |Filter(s, p)| == 0 <==> forall i :: 0 <= i < |s| ==> !p(s[i])
    decreases |s|
  {
    if |s| > 0 {
      FilterEmpty(s[..|s| - 1], p);
      assert forall i :: 0 <= i < |s| - 1 ==> s[..|s| - 1][i] == s[i];
    }
  }

  /** Membership in a filter, both directions. */
  lemma FilterMembership<T>(s: seq<T>, p: T -> bool, x: T)
    ensures x in Filter(s, p) <==> x in s && p(x)
  {
    FilterSound(s, p);
    if x in s && p(x) {
      var i :| 0 <= i < |s| && s[i] == x;
      FilterComplete(s, p, i);
    }
  }

  lemma SumSnoc<T>(s: seq<T>, x: T, f: T -> real)
    ensures Sum(s + [x], f) == Sum(s, f) + f(x)
  {
    assert (s + [x])[..|s|] == s;
  }

  lemma {:induction false} SumAppend<T>(a: seq<T>, b: seq<T>, f: T -> real)
    ensures Sum(a + b, f) == Sum(a, f) + Sum(b, f)
    decreases |b|
  {
    if |b| == 0 {
      assert a + b == a;
    } else {
      var b' := b[..|b| - 1];
      assert a + b == (a + b') + [b[|b| - 1]];
      SumSnoc(a + b', b[|b| - 1], f);
      SumAppend(a, b', f);
    }
  }

  /** Summing a pointwise sum is adding the two sums. */
  lemma {:induction false} SumAdd<T>(s: seq<T>, f: T -> real, g: T -> real, h: T -> real)
    requires forall x :: x in s ==> h(x) == f(x) + g(x)
    ensures Sum(s, h) == Sum(s, f) + Sum(s, g)
    decreases |s|
  {
    if |s| > 0 {
      SumAdd(s[..|s| - 1], f, g, h);
    }
  }

  /** Summing a scaled quantity is scaling the sum. */
  lemma {:induction false} SumScale<T>(s: seq<T>, f: T -> real, g: T -> real, c: real)
    requires forall x :: x in s ==> g(x) == c * f(x)
    ensures Sum(s, g) == c * Sum(s, f)
    decreases |s|
  {
    if |s| > 0 {
      SumScale(s[..|s| - 1], f, g, c);
    }
  }

  /** A pointwise smaller quantity has a smaller sum. */
  lemma {:induction false} SumMonotone<T>(s: seq<T>, f: T -> real, g: T -> real)
    requires forall x :: x in s ==> f(x) <= g(x)
    ensures Sum(s, f) <= Sum(s, g)
    decreases |s|
  {
    if |s| > 0 {
      SumMonotone(s[..|s| - 1], f, g);
    }
  }

  /** `c * n` as repeated addition, so that bounds stay linear. */
  function Times(c: real, n: nat): real {
    if n == 0 then 0.0 else Times(c, n - 1) + c
  }

  lemma {:induction false} TimesIsProduct(c: real, n: nat)
    ensures Times(c, n) == c * n as real
  {
    if n > 0 {
      TimesIsProduct(c, n - 1);
    }
  }

  /** Summands bounded by `c` sum to at most `c` times their number. */
  lemma {:induction false} SumBound<T>(s: seq<T>, f: T -> real, c: real)
    requires forall x :: x in s ==> f(x) <= c
    ensures Sum(s, f) <= Times(c, |s|)
    decreases |s|
  {
    if |s| > 0 {
      SumBound(s[..|s| - 1], f, c);
    }
  }

  /** Two sums that agree on every element are equal. */
  lemma {:induction false} SumCongruent<T>(s: seq<T>, f: T -> real, g: T -> real)
    requires forall x :: x in s ==> f(x) == g(x)
    ensures Sum(s, f) == Sum(s, g)
    decreases |s|
  {
    if |s| > 0 {
      SumCongruent(s[..|s| - 1], f, g);
    }
  }

  /** Two sequences of the same length whose summands agree position by
      position have the same sum. */
  lemma {:induction false} SumPointwise<A, B>(xs: seq<A>, f: A -> real, ys: seq<B>, g: B -> real)
    requires |xs| == |ys|
    requires forall i :: 0 <= i < |xs| ==> f(xs[i]) == g(ys[i])
    ensures Sum(xs, f) == Sum(ys, g)
    decreases |xs|
  {
    if |xs| > 0 {
      SumPointwise(xs[..|xs| - 1], f, ys[..|ys| - 1], g);
    }
  }

  /** Filtering commutes with appending one more element. */
  lemma FilterSnoc<T>(s: seq<T>, x: T, p: T -> bool)
    ensures Filter(s + [x], p) == Filter(s, p) + (if p(x) then [x] else [])
  {
    assert (s + [x])[..|s|] == s;
  }

  /** The summand `f` where `p` holds and zero elsewhere. */
  function Masked<T>(p: T -> bool, f: T -> real): T -> real {
    x => if p(x) then f(x) else 0.0
  }

  /** The sum over a filter is the sum of the summand masked by the filter. */
  lemma {:induction false} SumFilter<T>(s: seq<T>, p: T -> bool, f: T -> real)
    ensures Sum(Filter(s, p), f) == Sum(s, Masked(p, f))
    decreases |s|
  {
    if |s| > 0 {
      var s' := s[..|s| - 1];
      var x := s[|s| - 1];
      SumFilter(s', p, f);
      assert Sum(s, Masked(p, f)) == Sum(s', Masked(p, f)) + Masked(p, f)(x);
      if p(x) {
        assert Filter(s, p) == Filter(s', p) + [x];
        SumSnoc(Filter(s', p), x, f);
      } else {
        assert Filter(s, p) == Filter(s', p);
      }
    }
  }

  /** How many of four predicates hold of `x`. */
  function Holding<T>(x: T, p1: T -> bool, p2: T -> bool, p3: T -> bool, p4: T -> bool): nat {
    (if p1(x) then 1 else 0) + (if p2(x) then 1 else 0) + (if p3(x) then 1 else 0) + (if p4(x) then 1 else 0)
  }

  /** When exactly one of four predicates holds of every element, the sum
      splits into the sums over the four filters. */
  lemma {:induction false} SumPartition4<T>(s: seq<T>, p1: T -> bool, p2: T -> bool, p3: T -> bool, p4: T -> bool, f: T -> real)
    requires forall i :: 0 <= i < |s| ==> Holding(s[i], p1, p2, p3, p4) == 1
    ensures Sum(s, f) == Sum(Filter(s, p1), f) + Sum(Filter(s, p2), f) + Sum(Filter(s, p3), f) + Sum(Filter(s, p4), f)
    decreases |s|
  {
    if |s| > 0 {
      var s' := s[..|s| - 1];
      var x := s[|s| - 1];
      assert s == s' + [x];
      assert forall i :: 0 <= i < |s'| ==> s'[i] == s[i];
      SumPartition4(s', p1, p2, p3, p4, f);
      assert Holding(x, p1, p2, p3, p4) == 1;
      FilterSnocSum(s', x, p1, f);
      FilterSnocSum(s', x, p2, f);
      FilterSnocSum(s', x, p3, f);
      FilterSnocSum(s', x, p4, f);
      SumSnoc(s', x, f);
    }
  }

  /** One more element adds its summand to a filtered sum when it is kept. */
  lemma FilterSnocSum<T>(s: seq<T>, x: T, p: T -> bool, f: T -> real)
    ensures Sum(Filter(s + [x], p), f) == Sum(Filter(s, p), f) + (if p(x) then f(x) else 0.0)
  {
    FilterSnoc(s, x, p);
    if p(x) {
      SumSnoc(Filter(s, p), x, f);
    } else {
      assert Filter(s + [x], p) == Filter(s, p);
    }
  }

  /** The summand `f` capped at `c`: `min(f(x), c)`. */
  function CappedAt<T>(f: T -> real, c: real): T -> real {
    x => if f(x) <= c then f(x) else c
  }

  /** The part of `f` above `c`: `max(0, f(x) - c)`. */
  function ExcessOver<T>(f: T -> real, c: real): T -> real {
    x => if f(x) - c >= 0.0 then f(x) - c else 0.0
  }

  /** A capped sum is at most the uncapped sum and at most one cap per
      element. */
  lemma {:induction false} CappedSumBounds<T>(s: seq<T>, f: T -> real, c: real)
    ensures Sum(s, CappedAt(f, c)) <= Sum(s, f)
    ensures Sum(s, CappedAt(f, c)) <= Times(c, |s|)
    decreases |s|
  {
    if |s| > 0 {
      CappedSumBounds(s[..|s| - 1], f, c);
    }
  }

  /** What the cap keeps and what lies above it make up the whole sum. */
  lemma {:induction false} CappedPlusExcess<T>(s: seq<T>, f: T -> real, c: real)
    ensures Sum(s, CappedAt(f, c)) + Sum(s, ExcessOver(f, c)) == Sum(s, f)
    decreases |s|
  {
    if |s| > 0 {
      CappedPlusExcess(s[..|s| - 1], f, c);
    }
  }
}
