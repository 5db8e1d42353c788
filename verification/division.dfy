/** Facts about division that digits of any base need. */
module Division {

  lemma {:induction false} Monotone(a: nat, b: nat, c: nat)
    ensures b <= c ==> a * b <= a * c
  {
    if a > 0 {
      Monotone(a - 1, b, c);
      assert a * b == (a - 1) * b + b && a * c == (a - 1) * c + c;
    }
  }

  lemma QuotientIs(n: nat, d: nat, q: nat, r: nat)
    requires r < d && n == d * q + r
    ensures n / d == q
  {
    var q' := n / d;
    assert n == d * q' + n % d;
    Monotone(d, q + 1, q');
    Monotone(d, q' + 1, q);
    assert d * (q + 1) == d * q + d && d * (q' + 1) == d * q' + d;
  }

  lemma Times(a: nat, b: nat, q: nat, r: nat)
    ensures a * (b * q + r) == (a * b) * q + a * r
  {
    assert a * (b * q + r) == a * (b * q) + a * r;
    assert a * (b * q) == (a * b) * q;
  }

  lemma OneLess(a: nat, b: nat)
    requires b > 0
    ensures a * (b - 1) == a * b - a
  {
  }

  lemma Recombine(n: nat, a: nat, b: nat, d: nat, m: nat, s: nat, q: nat, r: nat)
    requires d == a * b && n == a * m + s && s < a && m == b * q + r && r < b
    ensures n / d == q
  {
    Times(a, b, q, r);
    Monotone(a, r, b - 1);
    OneLess(a, b);
    QuotientIs(n, d, q, a * r + s);
  }

  lemma Split(n: nat, d: nat)
    requires d > 0
    ensures n == d * (n / d) + n % d && n % d < d
  {
  }

  /** Dividing twice is dividing by the product. */
  lemma DivideTwice(n: nat, a: nat, b: nat, d: nat)
    requires a > 0 && b > 0 && d == a * b && d > 0
    ensures (n / a) / b == n / d
  {
    var m, s := n / a, n % a;
    Split(n, a);
    var q, r := m / b, m % b;
    Split(m, b);
    Recombine(n, a, b, d, m, s, q, r);
  }
}
