/** Parts compared by weight relative to target, without division. */
module Ratios {

  /** Weight `a` for target `ta` is relatively less than weight `b` for target `tb`. */
  predicate Lighter(a: int, ta: int, b: int, tb: int)
  {
    tb * a < ta * b
  }

  lemma LighterTransitive(a: int, ta: int, b: int, tb: int, c: int, tc: int)
    requires ta > 0 && tb > 0 && tc > 0 && Lighter(a, ta, b, tb) && Lighter(b, tb, c, tc)
    ensures Lighter(a, ta, c, tc)
  {
    Scale(tb * a, ta * b, tc);
    Scale(tc * b, tb * c, ta);
    assert tb * (tc * a) == tc * (tb * a) && tb * (ta * c) == ta * (tb * c) && tc * (ta * b) == ta * (tc * b);
    Unscale(tc * a, ta * c, tb);
  }

  lemma Scale(x: int, y: int, t: int)
    requires x < y && t > 0
    ensures t * x < t * y
  {
  }

  lemma Unscale(x: int, y: int, t: int)
    requires t * x < t * y && t > 0
    ensures x < y
  {
  }
}
