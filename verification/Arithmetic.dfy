/** Products kept opaque to the solver where it need not multiply them out, and rounding up. */
module Arithmetic {
  function Product(a: int, b: int): int {
    a * b
  }

  function CeilDiv(a: int, b: int): int
    requires 0 < b
  {
    (a + b - 1) / b
  }

  lemma ProductGrows(a: int, b: int, k: int)
    requires a <= b && 0 <= k
    ensures Product(a, k) <= Product(b, k)
  {
    assert (b - a) * k >= 0;
    assert (b - a) * k == b * k - a * k;
  }

  lemma ZeroProduct(k: int)
    ensures Product(0, k) == 0
  {
  }

  lemma OneProduct(k: int)
    ensures Product(1, k) == k
  {
  }

  lemma Spread(a: int, b: int, k: int)
    ensures Product(a + b, k) == Product(a, k) + Product(b, k)
  {
  }

  lemma CeilDivBounds(a: int, b: int, c: int)
    requires 0 < b
    ensures CeilDiv(a, b) <= c <==> a <= Product(c, b)
  {
    var q := CeilDiv(a, b);
    assert Product(q, b) - b < a <= Product(q, b);
    if q <= c {
      ProductGrows(q, c, b);
    } else {
      ProductGrows(c + 1, q, b);
      assert Product(c + 1, b) == Product(c, b) + b;
    }
  }

  lemma Commute(a: int, b: int)
    ensures Product(a, b) == Product(b, a)
  {
  }

  lemma Nonnegative(a: nat, b: nat)
    ensures 0 <= Product(a, b)
  {
  }

  lemma ExactCeil(q: nat, d: nat, t: nat)
    requires 0 < d && t == Product(d, q)
    ensures CeilDiv(t, d) == q
  {
    hide Product, CeilDiv;
    Commute(d, q);
    CeilDivBounds(t, d, q);
    CeilDivBounds(t, d, q - 1);
    Spread(q, -1, d);
    NegativeProduct(d);
  }

  lemma NegativeProduct(k: int)
    ensures Product(-1, k) == -k
  {
  }

  lemma CeilAtMost(a: nat, d: nat)
    requires 0 < d
    ensures CeilDiv(a, d) <= a
  {
    hide Product, CeilDiv;
    CeilDivBounds(a, d, a);
    Commute(a, d);
    ProductGrows(1, d, a);
    OneProduct(a);
  }

  lemma Smaller(x: int, y: int, k: nat)
    requires Product(x, k) < Product(y, k)
    ensures x < y
  {
    hide Product;
    if y <= x {
      ProductGrows(y, x, k);
      assert false;
    }
  }

  lemma Room(n: nat, a: nat)
    requires 0 < n
    ensures 0 <= Product(n - 1, a) == Product(n, a) - a
  {
    Spread(n - 1, 1, a);
    OneProduct(a);
    ZeroProduct(a);
    ProductGrows(0, n - 1, a);
  }

  function Mod(a: nat, b: nat): (r: nat)
    requires 0 < b
    ensures r < b
  {
    a % b
  }

  lemma DivisionIdentity(a: nat, n: nat)
    requires 0 < n
    ensures a == Product(a / n, n) + Mod(a, n)
  {
  }

  lemma SameRemainder(n: nat, q: nat, r: nat, p: nat, s: nat)
    requires r < n && s < n && Product(q, n) + r == Product(p, n) + s
    ensures q == p && r == s
  {
    hide Product;
    Spread(q, 1, n);
    Spread(p, 1, n);
    OneProduct(n);
    if q < p {
      ProductGrows(q + 1, p, n);
      assert false;
    } else if p < q {
      ProductGrows(p + 1, q, n);
      assert false;
    }
  }

  // The quotient and remainder of q*n + j.
  lemma ModIs(n: nat, q: nat, j: nat)
    requires j < n
    ensures 0 <= Product(q, n) && Mod(Product(q, n) + j, n) == j && (Product(q, n) + j) / n == q
  {
    Nonnegative(q, n);
    var a := Product(q, n) + j;
    DivisionIdentity(a, n);
    SameRemainder(n, q, j, a / n, Mod(a, n));
  }

  lemma ModSum(a: nat, b: nat, s: nat)
    requires s > 0 && a % s == 0 && b % s == 0
    ensures (a + b) % s == 0
    ensures a >= b ==> (a - b) % s == 0
  {
    DivisionIdentity(a, s);
    DivisionIdentity(b, s);
    var x, y := a / s, b / s;
    hide Product;
    Spread(x, y, s);
    ModIs(s, x + y, 0);
    if a >= b {
      Spread(x - y, y, s);
      if x < y {
        ProductGrows(x + 1, y, s);
        Room(x + 1, s);
        assert false;
      } else {
        ModIs(s, x - y, 0);
      }
    }
  }
}
