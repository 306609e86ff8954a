/** Division by a variable divisor, in a form that is easy to reason about. */
module Arithmetic {

  /** The remainder of x by n, by repeated subtraction. */
  function Mod(x: nat, n: nat): (r: nat)
    requires n > 0
    ensures r < n
  {
    if x < n then x else Mod(x - n, n)
  }

  lemma RemainderUnique(x: nat, n: nat, q: int, r: nat)
    requires r < n && x == q * n + r
    ensures x % n == r
  {
    var d := q - x / n;
    assert d * n == x % n - r;
    assert d > 0 ==> d * n >= n;
    assert d < 0 ==> d * n + n <= 0;
  }

  lemma {:induction false} ModIsRemainder(x: nat, n: nat)
    requires n > 0
    ensures Mod(x, n) == x % n
  {
    if x >= n {
      ModIsRemainder(x - n, n);
      RemainderUnique(x, n, (x - n) / n + 1, (x - n) % n);
    }
  }

  /** The quotient of x by n, by repeated subtraction. */
  function Div(x: nat, n: nat): nat
    requires n > 0
  {
    if x < n then 0 else 1 + Div(x - n, n)
  }

  lemma {:induction false} DivMod(x: nat, n: nat)
    requires n > 0
    ensures Div(x, n) * n + Mod(x, n) == x
  {
    if x >= n {
      DivMod(x - n, n);
      assert Div(x, n) * n == Div(x - n, n) * n + n;
    }
  }

  lemma DivIsQuotient(x: nat, n: nat)
    requires n > 0
    ensures Div(x, n) == x / n
  {
    DivMod(x, n);
    ModIsRemainder(x, n);
    var d := Div(x, n) - x / n;
    assert d * n == 0;
  }

  lemma {:induction false} DivMonotone(x: nat, y: nat, n: nat)
    requires x <= y && n > 0
    ensures Div(x, n) <= Div(y, n)
  {
    if x >= n { DivMonotone(x - n, y - n, n); }
  }

  lemma {:induction false} DivExact(q: nat, n: nat)
    requires n > 0
    ensures Div(q * n, n) == q
  {
    if q > 0 {
      DivExact(q - 1, n);
      assert q * n == (q - 1) * n + n;
    }
  }
}
