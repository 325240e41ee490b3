/** Products and quotients of real numbers. */
module RealFacts {

  // Products are named, so that sums of products can be compared term by term.
  function Times(x: real, y: real): real { x * y }

  lemma ProductPositive(p: real, q: real)
    requires p > 0.0 && q > 0.0
    ensures Times(p, q) > 0.0
  {
  }

  lemma ProductNonZero(p: real, q: real)
    requires p != 0.0 && q != 0.0
    ensures Times(p, q) != 0.0
  {
    var a, b := if p > 0.0 then p else -p, if q > 0.0 then q else -q;
    ProductPositive(a, b);
    assert Times(a, b) == Times(p, q) || Times(a, b) == -Times(p, q);
  }

  lemma SquareSign(x: real)
    ensures Times(x, x) >= 0.0
    ensures Times(x, x) == 0.0 <==> x == 0.0
  {
    if x != 0.0 { ProductNonZero(x, x); }
  }

  lemma SignOfProduct(p: real, t: real)
    requires t > 0.0
    ensures Times(p, t) > 0.0 <==> p > 0.0
    ensures Times(p, t) == 0.0 <==> p == 0.0
  {
    if p > 0.0 {
      ProductPositive(p, t);
    } else if p < 0.0 {
      ProductPositive(-p, t);
      assert Times(-p, t) == -Times(p, t);
    }
  }

  lemma RatioFacts(done: real, total: real)
    requires 0.0 <= done <= total && total > 0.0
    ensures 0.0 <= done / total <= 1.0
    ensures done / total == 1.0 <==> done == total
  {
    var q := done / total;
    assert Times(q, total) == done;
    SignOfProduct(q, total);
    SignOfProduct(1.0 - q, total);
    assert Times(1.0 - q, total) == total - Times(q, total);
  }
}
