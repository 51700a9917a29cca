/** Division with remainder by a variable, one step at a time. */
module Arithmetic {

  lemma {:induction false} MultipleGrows(n: int, d: int)
    requires n >= 1
    ensures d >= 1 ==> n * d >= n
    ensures d <= -1 ==> n * d <= -n
  {
  }

  lemma {:induction false} DivModUnique(x: int, n: int, q: int, r: int)
    requires n >= 1 && x == n * q + r && 0 <= r < n
    ensures x / n == q && x % n == r
  {
    var d := x / n - q;
    assert n * d == r - x % n by {
      assert x == n * (x / n) + x % n;
    }
    MultipleGrows(n, d);
  }

  lemma {:induction false} NextTurnOf(i: nat, n: nat)
    requires n >= 1
    ensures i % n < n - 1 ==> (i + 1) / n == i / n && (i + 1) % n == i % n + 1
    ensures i % n == n - 1 ==> (i + 1) / n == i / n + 1 && (i + 1) % n == 0
  {
    assert i == n * (i / n) + i % n;
    if i % n < n - 1 {
      DivModUnique(i + 1, n, i / n, i % n + 1);
    } else {
      assert i + 1 == n * (i / n + 1) + 0;
      DivModUnique(i + 1, n, i / n + 1, 0);
    }
  }

  lemma {:induction false} SameTurn(x: nat, y: nat, n: nat)
    requires n >= 1 && x % n == y % n && x - y < n && y - x < n
    ensures x == y
  {
    assert x == n * (x / n) + x % n && y == n * (y / n) + y % n;
    assert n * (x / n - y / n) == x - y;
    MultipleGrows(n, x / n - y / n);
  }
}
