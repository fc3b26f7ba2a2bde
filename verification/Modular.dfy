/** Remainders by a variable divisor: the few facts the counters need. */
module Modular {

  lemma {:induction false} SmallMultiple(w: int, x: int, r: int)
    requires w > 0 && 0 <= r < w && 0 <= w * x + r < w
    ensures x == 0
  {
    if x >= 1 {
      Monotone(w, 1, x);
    } else if x <= -1 {
      Monotone(w, x, -1);
    }
  }

  lemma Monotone(w: int, x: int, y: int)
    requires w >= 0 && x <= y
    ensures w * x <= w * y
  {
  }

  /** Quotient and remainder are the only pair of their kind. */
  lemma Unique(n: int, w: int, q: int, r: int)
    requires w > 0 && 0 <= r < w && n == w * q + r
    ensures n % w == r && n / w == q
  {
    var q', r' := n / w, n % w;
    assert n == w * q' + r';
    assert w * (q - q') == r' - r;
    if r' >= r {
      SmallMultiple(w, q - q', 0);
    } else {
      assert w * (q' - q) == r - r';
      SmallMultiple(w, q' - q, 0);
    }
  }

  lemma AddMultiple(n: int, w: int, k: int)
    requires w > 0
    ensures (n + w * k) % w == n % w
  {
    assert n == w * (n / w) + n % w;
    assert n + w * k == w * (n / w + k) + n % w;
    Unique(n + w * k, w, n / w + k, n % w);
  }

  lemma Small(n: int, w: int)
    requires 0 <= n < w
    ensures n % w == n
  {
    Unique(n, w, 0, n);
  }

  lemma Successor(n: int, w: int)
    requires w > 0
    ensures (n + 1) % w == if n % w + 1 == w then 0 else n % w + 1
  {
    assert n == w * (n / w) + n % w;
    if n % w + 1 == w {
      assert n + 1 == w * (n / w + 1);
      Unique(n + 1, w, n / w + 1, 0);
    } else {
      Unique(n + 1, w, n / w, n % w + 1);
    }
  }

  /** A remainder by a multiple of w keeps the remainder by w. */
  lemma Nested(n: int, m: int, w: int)
    requires w > 0 && m > 0 && m % w == 0
    ensures n % m % w == n % w
  {
    var q, d, r := m / w, n / m, n % m;
    assert m == w * q;
    assert n == m * d + r;
    assert m * d == w * (q * d) by {
      Associative(w, q, d);
    }
    AddMultiple(r, w, q * d);
  }

  lemma Associative(a: int, b: int, c: int)
    ensures a * b * c == a * (b * c)
  {
  }

  lemma FloorMultiple(n: int, w: int)
    requires w > 0
    ensures (n - n % w) % w == 0
  {
    Unique(n - n % w, w, n / w, 0);
  }

  /** Multiples of w less than w apart are equal. */
  lemma SameMultiple(c: int, d: int, w: int)
    requires w > 0 && c % w == 0 && d % w == 0 && -w < d - c < w
    ensures c == d
  {
    assert c == w * (c / w) && d == w * (d / w);
    if c <= d {
      assert d - c == w * (d / w - c / w);
      SmallMultiple(w, d / w - c / w, 0);
    } else {
      assert c - d == w * (c / w - d / w);
      SmallMultiple(w, c / w - d / w, 0);
    }
  }
}
