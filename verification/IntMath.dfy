/** Facts about integer division that the other modules need. */
module IntMath {

  lemma MulAtLeast(m: int, k: int)
    requires m > 0 && k >= 1
    ensures m * k >= m
  {
    assert m * k == m * (k - 1) + m;
    assert m * (k - 1) >= 0;
  }

  lemma MulMono(k: nat, a: int, b: int)
    requires a <= b
    ensures k * a <= k * b
  {
    assert k * b == k * a + k * (b - a);
  }

  lemma ModUnique(a: int, m: int, q: int, r: int)
    requires m > 0 && a == m * q + r && 0 <= r < m
    ensures a % m == r && a / m == q
  {
    var q', r' := a / m, a % m;
    assert a == m * q' + r';
    assert m * (q - q') == m * q - m * q' && m * (q' - q) == m * q' - m * q;
    if q > q' {
      MulAtLeast(m, q - q');
    } else if q < q' {
      MulAtLeast(m, q' - q);
    }
  }

  lemma ModSucc(a: nat, m: int)
    requires m > 1
    ensures (a + 1) % m == if a % m + 1 == m then 0 else a % m + 1
  {
    var q, r := a / m, a % m;
    assert a == m * q + r;
    if r + 1 < m {
      ModUnique(a + 1, m, q, r + 1);
    } else {
      assert m * (q + 1) == m * q + m;
      ModUnique(a + 1, m, q + 1, 0);
    }
  }

  lemma SameResidue(a: int, b: int, m: int)
    requires m > 0
    ensures a % m == b % m <==> (b - a) % m == 0
  {
    var qa, qb, qd := a / m, b / m, (b - a) / m;
    assert a == m * qa + a % m && b == m * qb + b % m && b - a == m * qd + (b - a) % m;
    assert m * (qb - qa) == m * qb - m * qa && m * (qa + qd) == m * qa + m * qd;
    if a % m == b % m {
      ModUnique(b - a, m, qb - qa, 0);
    }
    if (b - a) % m == 0 {
      ModUnique(b, m, qa + qd, a % m);
    }
  }

  lemma ModAdd(a: int, b: int, m: int)
    requires m > 0
    ensures (a % m + b) % m == (a + b) % m
  {
    var q := a / m;
    assert (a + b) - (a % m + b) == m * q;
    ModUnique(m * q, m, q, 0);
    SameResidue(a % m + b, a + b, m);
  }
}
