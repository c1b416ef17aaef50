/** Quotients and remainders by a divisor that is not a constant. */
module Division {
  lemma DivStep(n: nat, w: nat)
    requires w >= 1
    ensures n % w < w && n == (n / w) * w + n % w
    ensures n % w == w - 1 ==> (n + 1) / w == n / w + 1 && (n + 1) % w == 0
    ensures n % w < w - 1 ==> (n + 1) / w == n / w && (n + 1) % w == n % w + 1
  {
    var q, r := n / w, n % w;
    assert n == q * w + r;
    if r == w - 1 {
      DivUnique(n + 1, w, q + 1, 0);
    } else {
      DivUnique(n + 1, w, q, r + 1);
    }
  }

  lemma MulAtLeast(k: int, w: nat)
    requires k >= 1
    ensures k * w >= w
  {
    assert k * w == (k - 1) * w + w;
  }

  /** Quotient and remainder are determined. */
  lemma SameQuotient(w: nat, q: int, r: int, q': int, r': int)
    requires q * w + r == q' * w + r' && 0 <= r < w && 0 <= r' < w
    ensures q == q' && r == r'
  {
    if q' > q {
      MulAtLeast(q' - q, w);
    } else if q > q' {
      MulAtLeast(q - q', w);
    }
  }

  lemma DivUnique(n: int, w: nat, q: int, r: nat)
    requires r < w && n == q * w + r
    ensures n / w == q && n % w == r
  {
    SameQuotient(w, q, r, n / w, n % w);
  }

  lemma DivModInjective(i: nat, j: nat, w: nat)
    requires w >= 1 && i / w == j / w && i % w == j % w
    ensures i == j
  {
    assert i == (i / w) * w + i % w && j == (j / w) * w + j % w;
  }

  lemma DivMonotone(i: nat, j: nat, w: nat)
    requires w >= 1 && i <= j
    ensures i / w <= j / w
  {
    Ordered(w, i / w, i % w, j / w, j % w);
  }

  lemma Ordered(w: nat, q: int, r: int, q': int, r': int)
    requires q * w + r <= q' * w + r' && 0 <= r < w && 0 <= r' < w
    ensures q <= q'
  {
    if q > q' {
      MulAtLeast(q - q', w);
    }
  }

  lemma DivPlus(a: int, w: nat)
    requires w >= 1
    ensures (a + w) / w == a / w + 1 && (a + w) % w == a % w
  {
    DivUnique(a + w, w, a / w + 1, a % w);
  }

  lemma MulMonotone(a: int, b: int, w: nat)
    requires a <= b
    ensures a * w <= b * w
  {
  }

  lemma Below(b: nat, r: nat, p: nat, k: nat)
    requires b < k && r < p
    ensures 0 <= b * p + r < k * p
  {
    MulMonotone(b + 1, k, p);
    assert (b + 1) * p == b * p + p;
    MulMonotone(0, b, p);
  }

  lemma Distribute(a: int, b: int, k: int, p: int)
    ensures (a * k + b) * p == a * (k * p) + b * p
  {
  }

  /** Dividing in two stages. */
  lemma {:induction false} TwoStage(x: nat, p: nat, k: nat)
    requires p >= 1 && k >= 1
    ensures k * p >= 1
    ensures (x % (k * p)) / p == x / p % k && (x % (k * p)) % p == x % p
    ensures x / p == k * (x / (k * p)) + x / p % k
  {
    var q, r := x / p, x % p;
    var a, b := q / k, q % k;
    Below(b, r, p, k);
    Distribute(a, b, k, p);
    DivUnique(x, k * p, a, b * p + r);
    DivUnique(b * p + r, p, b, r);
  }
}
