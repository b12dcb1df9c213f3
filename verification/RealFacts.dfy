/** Order facts about products and quotients of reals. */
module RealFacts {

  lemma Square(x: real)
    ensures x * x >= 0.0
  {
  }

  lemma Product(x: real, y: real)
    requires x >= 0.0 && y >= 0.0
    ensures x * y >= 0.0
  {
  }

  lemma PositiveProduct(x: real, y: real)
    requires x > 0.0 && y > 0.0
    ensures x * y > 0.0
  {
  }

  lemma SquareGrows(x: real, y: real)
    requires x > y >= 0.0
    ensures x * x > y * y
  {
    PositiveProduct(x - y, x + y);
    assert (x - y) * (x + y) == x * x - y * y;
  }

  lemma Regroup(p: real, q: real, a: real, b: real)
    ensures (p * a) * (q * b) == (p * q) * (a * b)
  {
    assert (p * a) * (q * b) == p * (a * (q * b)) == p * (q * (a * b));
  }

  lemma QuotientInUnit(d: real, m: real)
    requires m > 0.0 && d * d <= m * m
    ensures -1.0 <= d / m <= 1.0
  {
    if d > m {
      SquareGrows(d, m);
      assert false;
    }
    if -d > m {
      SquareGrows(-d, m);
      assert false;
    }
  }

  lemma NegativeProduct(x: real, y: real)
    requires x < 0.0 && y > 0.0
    ensures x * y < 0.0
  {
  }

  lemma CrossDivide(a: real, b: real, a': real, b': real)
    requires b > 0.0 && b' > 0.0 && a' * b >= a * b'
    ensures a / b <= a' / b'
  {
    var x, y := a / b, a' / b';
    assert x * b == a && y * b' == a';
    assert y * b' * b >= x * b * b';
    assert (y - x) * (b * b') >= 0.0;
    if y < x {
      NegativeProduct(y - x, b * b');
      assert false;
    }
  }

  lemma ProductBound(x: real, y: real, w: real, h: real)
    requires 0.0 <= x <= w && 0.0 <= y <= h
    ensures 0.0 <= x * y <= w * h
  {
    assert x * y <= w * y;
    assert w * y <= w * h;
  }

  lemma QuotientBound(a: real, b: real)
    requires 0.0 <= a <= b && b > 0.0
    ensures 0.0 <= a / b <= 1.0
  {
  }

  lemma NonNegativeQuotient(c: real, l: real)
    requires l > 0.0 && c >= 0.0
    ensures c / l >= 0.0
  {
  }

  lemma PositiveQuotient(c: real, l: real)
    requires l > 0.0 && c > 0.0
    ensures c / l > 0.0
  {
  }

  lemma QuotientShrinks(c: real, l: real, l': real)
    requires c >= 0.0 && 0.0 < l <= l'
    ensures c / l >= c / l'
  {
    var y := c / l';
    assert y * l' == c && y >= 0.0;
    assert y * l <= y * l';
    assert y <= c / l;
  }

  lemma Quotients(c: real, x: real, y: real, l: real)
    requires l > 0.0
    ensures c / l + x / l - y / l == (c + x - y) / l
  {
  }

  lemma NoQuotient(c: real, l: real)
    requires l > 0.0 && c >= 0.0 && c / l <= 0.0
    ensures c == 0.0
  {
    if c > 0.0 {
      PositiveQuotient(c, l);
      assert false;
    }
  }

  lemma Opposite(c: real, l: real)
    requires l > 0.0
    ensures (0.0 - c) / l == 0.0 - c / l && 0.0 / l == 0.0
  {
  }

  lemma Larger(x: real, l: real, l': real)
    requires x > 0.0 && l < l'
    ensures x * l < x * l'
  {
  }

  lemma SameFactor(x: real, y: real, l: real)
    requires x <= y && l > 0.0
    ensures x * l <= y * l
  {
  }

  lemma StrictQuotient(c: real, l: real, l': real)
    requires c >= 0.0 && 0.0 < l < l' && c / l <= c / l'
    ensures c == 0.0
  {
    var x, y := c / l, c / l';
    assert c == x * l && c == y * l';
    if c > 0.0 {
      PositiveQuotient(c, l);
      Larger(x, l, l');
      SameFactor(x, y, l');
      assert false;
    }
  }

  lemma OneIffEqual(x: real, y: real)
    requires y > 0.0
    ensures x / y == 1.0 <==> x == y
  {
    assert x == (x / y) * y;
  }

  lemma MoreThanOne(x: real, y: real)
    requires x > y > 0.0
    ensures x / y > 1.0
  {
  }
}
