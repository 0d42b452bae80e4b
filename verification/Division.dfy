/** Facts about products and whole-number division. */
module Division {

  lemma DivModOf(q: int, c: int, k: int)
    requires 0 <= k < c
    ensures (q * c + k) / c == q && (q * c + k) % c == k
  {
    var n := q * c + k;
    var d, m := n / c, n % c;
    assert (q - d) * c == m - k && (d - q) * c == k - m;
    if q > d { Multiple(q - d, c); }
    if q < d { Multiple(d - q, c); }
  }

  lemma Multiple(n: int, c: int)
    requires n >= 1 && c > 0
    ensures n * c >= c
  {}

  lemma DivisionBounds(n: int, c: int)
    requires c > 0
    ensures n / c * c <= n < n / c * c + c && n / c * c + n % c == n
  {}

  lemma Larger(a: int, b: int, c: int)
    requires c > 0 && a * c < b * c
    ensures a < b
  {
    if a >= b { Scaled(b, a, c); }
  }

  lemma Scaled(a: int, b: int, c: int)
    requires c >= 0 && a <= b
    ensures a * c <= b * c
  {
    assert (b - a) * c >= 0;
  }
}
