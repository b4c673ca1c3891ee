/** The few facts about quotients that similarity and coverage need. */
module Fractions {

  lemma ScaleOrder(p: real, q: real, y: real)
    requires y > 0.0
    ensures p <= q <==> p * y <= q * y
  {
    assert q * y - p * y == (q - p) * y;
    if p <= q {
      assert (q - p) * y >= 0.0;
    } else {
      assert (p - q) * y > 0.0;
    }
  }

  lemma QuotientOrder(x: real, y: real, c: real)
    requires y > 0.0
    ensures x / y <= c <==> x <= c * y
    ensures c <= x / y <==> c * y <= x
  {
    var q := x / y;
    assert q * y == x;
    ScaleOrder(q, c, y);
    ScaleOrder(c, q, y);
  }

  lemma Gap(p: real, q: real, w: real, x: real, y: real)
    requires w > 0.0 && p * w == x && q * w == y
    ensures p <= q + 0.05 <==> 20.0 * x <= 20.0 * y + w
  {
    ScaleOrder(p, q + 0.05, w);
    assert (q + 0.05) * w == q * w + 0.05 * w;
  }

  /** Two fractions of the same whole, compared across a gap of one twentieth. */
  lemma TwentiethOrder(x: nat, y: nat, n: nat)
    requires n > 0
    ensures x as real / n as real <= y as real / n as real + 0.05 <==> 20 * x <= 20 * y + n
  {
    var p, q, w := x as real / n as real, y as real / n as real, n as real;
    Gap(p, q, w, x as real, y as real);
    assert 20.0 * (x as real) <= 20.0 * (y as real) + w <==> 20 * x <= 20 * y + n;
  }
}
