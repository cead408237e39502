/** The category filter use case over catalogue products. */
module FilterProductsByCategory {
  import opened Catalogue

  /** `a` is `b` with some elements dropped and the rest kept in order. */
  predicate IsSubsequence<T(==)>(a: seq<T>, b: seq<T>)
    decreases |b|
  {
    |a| == 0 ||
    (|b| > 0 && ((a[0] == b[0] && IsSubsequence(a[1..], b[1..])) || IsSubsequence(a, b[1..])))
  }

  /** The products whose category is exactly `category`, in input order. */
  function Invoke(products: seq<ApiProduct>, category: string): (r: seq<ApiProduct>)
    ensures forall i :: 0 <= i < |r| ==> r[i].category == category
    ensures forall p :: multiset(r)[p] == (if p.category == category then multiset(products)[p] else 0)
    ensures IsSubsequence(r, products)
    ensures |r| <= |products|
    decreases |products|
  {
    if |products| == 0 then []
    else
      var head := products[0];
      var rest := Invoke(products[1..], category);
      assert products == [head] + products[1..];
      assert multiset(products) == multiset([head]) + multiset(products[1..]);
      if head.category == category then
        assert ([head] + rest)[1..] == rest;
        assert multiset([head] + rest) == multiset([head]) + multiset(rest);
        [head] + rest
      else
        rest
  }

  /** Every product of the category survives the filter. */
  lemma KeepsEveryMatch(products: seq<ApiProduct>, category: string, p: ApiProduct)
    requires p in products && p.category == category
    ensures p in Invoke(products, category)
  {
    assert multiset(products)[p] > 0;
  }

  /** Filtering twice by the same category is filtering once. */
  lemma {:induction false} Idempotent(products: seq<ApiProduct>, category: string)
    ensures Invoke(Invoke(products, category), category) == Invoke(products, category)
    decreases |products|
  {
    if |products| > 0 {
      Idempotent(products[1..], category);
    }
  }
}
