/** Multiplication and division facts. */
module Arith {

  lemma MulGap(d: int, b: nat)
    ensures d >= 1 ==> d * b >= b
    ensures d <= -1 ==> d * b + b <= 0
  {
    if d >= 1 {
      assert (d - 1) * b >= 0;
    } else if d <= -1 {
      assert (-d - 1) * b >= 0;
    }
  }

  lemma MulMonotone(a: nat, b: nat, c: nat)
    requires a <= b
    ensures a * c <= b * c
  {
    assert (b - a) * c >= 0;
  }

  lemma DivModUnique(n: nat, q: nat, r: nat, m: nat)
    requires n == q * m + r && r < m
    ensures n / m == q && n % m == r
  {
    var q2 := n / m;
    assert n == q2 * m + n % m;
    assert (q - q2) * m == q * m - q2 * m;
    MulGap(q - q2, m);
  }

  lemma MultiplesAdd(a: nat, b: nat, m: nat)
    requires m > 0 && a % m == 0 && b % m == 0
    ensures (a + b) % m == 0
  {
    var j, k := a / m, b / m;
    assert a == j * m && b == k * m;
    assert (j + k) * m == j * m + k * m;
    DivModUnique(a + b, j + k, 0, m);
  }

  lemma MultipleAside(x: nat, y: nat, m: nat)
    requires m > 0 && x % m == 0
    ensures (x + y) % m == y % m
  {
    var j, k := x / m, y / m;
    assert x == j * m && y == k * m + y % m;
    assert (j + k) * m == j * m + k * m;
    DivModUnique(x + y, j + k, y % m, m);
  }

  /** What divides a unit divides every number of them. */
  lemma DividesMultiple(k: nat, unit: nat, m: nat)
    requires m > 0 && unit % m == 0
    ensures (k * unit) % m == 0
  {
    var j := unit / m;
    assert unit == j * m;
    assert k * unit == (k * j) * m;
    DivModUnique(k * unit, k * j, 0, m);
  }

  lemma DivideExact(n: nat, m: nat)
    requires m > 0 && n % m == 0
    ensures n / m * m == n
  {
  }
}
