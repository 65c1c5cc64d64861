/** Integer division by a variable. */
module Division {

  lemma Quotient(a: nat, b: nat, q: nat)
    requires b >= 1 && q * b <= a < q * b + b
    ensures a / b == q
  {
    var d := a / b - q;
    assert d * b == a - a % b - q * b;
  }

  lemma NextMultiple(a: nat, b: nat)
    requires b >= 1
    ensures (a + b) / b == a / b + 1
  {
    Quotient(a + b, b, a / b + 1);
  }

  /** Counting up by one: either the remainder grows, or it wraps and the quotient grows. */
  lemma NextQuotient(n: nat, b: nat)
    requires b >= 1
    ensures if n % b == b - 1 then (n + 1) / b == n / b + 1 && (n + 1) % b == 0
            else (n + 1) / b == n / b && (n + 1) % b == n % b + 1
  {
    var q, m := n / b, n % b;
    assert n == q * b + m;
    if m == b - 1 {
      assert n + 1 == (q + 1) * b;
      Quotient(n + 1, b, q + 1);
    } else {
      Quotient(n + 1, b, q);
    }
  }

  lemma MulMono(x: nat, y: nat, b: nat)
    requires x <= y
    ensures x * b <= y * b
  {
    assert y * b == x * b + (y - x) * b;
  }

  lemma AtMostQuotient(a: nat, b: nat, k: nat)
    requires b >= 1 && k * b <= a
    ensures k <= a / b
  {
    var q := a / b;
    if k > q {
      MulMono(q + 1, k, b);
    }
  }
}
