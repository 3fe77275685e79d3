/** Remainders by a variable divisor, which the solver does not find by itself. */
module Modular {

  function Succ(i: nat, n: nat): nat {
    if i + 1 >= n then 0 else i + 1
  }

  lemma Fundamental(x: nat, n: nat)
    requires n > 0
    ensures x == (x / n) * n + x % n && x % n < n
  {
  }

  lemma MulSub(a: int, b: int, n: nat)
    ensures a * n - b * n == (a - b) * n
    ensures a - b >= 1 ==> (a - b) * n >= n
  {
  }

  lemma ModUnique(x: nat, n: nat, q: nat, r: nat)
    requires n > 0 && r < n && x == q * n + r
    ensures x % n == r && x / n == q
  {
    Fundamental(x, n);
    MulSub(q, x / n, n);
    MulSub(x / n, q, n);
  }

  lemma DivModSucc(x: nat, n: nat)
    requires n > 0
    ensures (x + 1) % n == Succ(x % n, n)
    ensures (x + 1) / n == x / n + (if x % n + 1 < n then 0 else 1)
  {
    var q, r := x / n, x % n;
    Fundamental(x, n);
    if r + 1 < n {
      ModUnique(x + 1, n, q, r + 1);
    } else {
      MulSub(q + 1, q, n);
      ModUnique(x + 1, n, q + 1, 0);
    }
  }

  lemma ModSucc(x: nat, n: nat)
    requires n > 0
    ensures (x + 1) % n == Succ(x % n, n)
  {
    DivModSucc(x, n);
  }

  lemma ModRounds(rounds: nat, n: nat, t: nat)
    requires n > 0
    ensures (rounds * n + t) % n == t % n && (t % n) % n == t % n
  {
    Fundamental(t, n);
    MulSub(rounds + t / n, t / n, n);
    ModUnique(rounds * n + t, n, rounds + t / n, t % n);
    ModUnique(t % n, n, 0, t % n);
  }
}
