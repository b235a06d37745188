/** Products and quotients of variables, kept behind a function so that each step of a
    proof says which law it uses. */
module Arith {
  function Mul(a: int, b: int): (r: int)
    ensures a >= 0 && b >= 0 ==> r >= 0
  {
    a * b
  }

  lemma Spread(a: int, b: int, c: int)
    ensures Mul(a, b + c) == Mul(a, b) + Mul(a, c) && Mul(a, b - c) == Mul(a, b) - Mul(a, c)
  {
  }

  lemma Regroup(a: int, b: int, c: int)
    ensures Mul(Mul(a, b), c) == Mul(a, Mul(b, c)) && Mul(a, b) == Mul(b, a)
  {
  }

  lemma Smaller(d: int, k: int)
    requires d > 0
    ensures Mul(d, k) >= 0 <==> k >= 0
    ensures Mul(d, k) > 0 <==> k > 0
  {
    if k < 0 {
      assert d * k < 0;
    } else if k > 0 {
      assert d * k > 0;
    }
  }

  lemma DivMod(a: nat, b: nat)
    requires b > 0
    ensures a == Mul(b, a / b) + a % b
  {
  }

  lemma Unit(p: nat)
    ensures Mul(p, 1) == p && Mul(p, 0) == 0
  {
  }

  lemma Exactly(f: nat, x: int, y: nat)
    requires f > 0 && y == Mul(f, x)
    ensures y / f == x
  {
    hide Mul;
    var q := y / f;
    DivMod(y, f);
    Spread(f, x, q);
    Smaller(f, x - q);
    Spread(f, x - q, 1);
    Unit(f);
    Smaller(f, x - q - 1);
  }

  lemma RemainderIs(m: nat, n: nat, q: int, r: nat)
    requires r < n && m == Mul(n, q) + r
    ensures m % n == r
  {
    hide Mul;
    DivMod(m, n);
    var e := m / n;
    Spread(n, q, e);
    Unit(n);
    Spread(n, q - e, 1);
    Spread(n, e - q, 1);
    Spread(n, e, q);
    Smaller(n, q - e - 1);
    Smaller(n, e - q - 1);
  }

  lemma Cancel(g: int, x: int, y: int)
    requires g > 0 && Mul(g, x) == Mul(g, y)
    ensures x == y
  {
    hide Mul;
    Spread(g, x, y);
    Spread(g, y, x);
    Smaller(g, x - y);
    Smaller(g, y - x);
  }
}
