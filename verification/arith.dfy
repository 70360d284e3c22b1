/** Facts about Euclidean division and remainder by a positive modulus, used by
    the round-robin proofs. gev's round-robin cursor is never negative, so Go's
    truncating `%` and Dafny's Euclidean `%` agree on every value it takes. */
module Arith {

  /** Quotient and remainder are determined by any decomposition `m == a * k + b`
      with `0 <= b < k`. */
  lemma DivModUnique(m: int, k: int, a: int, b: int)
    requires k > 0 && 0 <= b < k
    requires m == a * k + b
    ensures m / k == a && m % k == b
  {
    var q, r := m / k, m % k;
    assert m == q * k + r;
    assert (a - q) * k == r - b;
    if a - q >= 1 {
      assert false;
    } else if a - q <= -1 {
      assert false;
    }
  }

  /** Advancing a reduced cursor by one and reducing again is the same as
      reducing the advanced value. */
  lemma ModSucc(x: nat, k: nat)
    requires k > 0
    ensures (x % k + 1) % k == (x + 1) % k
  {
    var q, r := x / k, x % k;
    assert x == q * k + r;
    if r + 1 < k {
      DivModUnique(x + 1, k, q, r + 1);
      DivModUnique(r + 1, k, 0, r + 1);
    } else {
      DivModUnique(x + 1, k, q + 1, 0);
      DivModUnique(r + 1, k, 1, 0);
    }
  }

  /** One more step of a count: how `m / k` and `m % k` change from `m - 1` to `m`. */
  lemma DivModStep(m: nat, k: nat)
    requires k > 0 && m > 0
    ensures (m - 1) % k + 1 < k ==> m / k == (m - 1) / k && m % k == (m - 1) % k + 1
    ensures (m - 1) % k + 1 == k ==> m / k == (m - 1) / k + 1 && m % k == 0
  {
    var q, r := (m - 1) / k, (m - 1) % k;
    assert m - 1 == q * k + r;
    if r + 1 < k {
      DivModUnique(m, k, q, r + 1);
    } else {
      DivModUnique(m, k, q + 1, 0);
    }
  }

  /** The ceiling of `m / k`, written `(m + k - 1) / k`, equals the floor when `k`
      divides `m` and exceeds it by one otherwise. */
  lemma CeilDiv(m: nat, k: nat)
    requires k > 0
    ensures m % k == 0 ==> (m + k - 1) / k == m / k
    ensures m % k > 0 ==> (m + k - 1) / k == m / k + 1
  {
    var q, r := m / k, m % k;
    assert m == q * k + r;
    if r == 0 {
      DivModUnique(m + k - 1, k, q, k - 1);
    } else {
      DivModUnique(m + k - 1, k, q + 1, r - 1);
    }
  }
}
