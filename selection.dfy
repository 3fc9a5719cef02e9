/** The selection rule of showRandomQuote: a random value in [0, 1) scaled by
    the number of stored quotes and rounded down. */
module Selection {
  import opened Wrappers

  /** The index floor(r * n) into a store of `n` quotes, or None when the
      store is empty and there is nothing to index. `r` stands for the value
      of Math.random(). */
  function PickIndex(n: nat, r: real): (k: Option<nat>)
    requires 0.0 <= r < 1.0
    ensures k.None? <==> n == 0
    ensures k.Some? ==> k.value < n
  {
    if n == 0 then
      None
    else
      var x := r * (n as real);
      ScaleKeepsOrder(0.0, r, n as real);
      ScaleKeepsOrder(r, 1.0, n as real);
      FloorBelow(x, n);
      Some(x.Floor)
  }

  /** Index `k` is chosen exactly for the values of `r` in [k/n, (k+1)/n): each
      index of a non-empty store owns an interval of width 1/n, so a uniform
      `r` selects every quote with the same probability. */
  lemma PickIndexInterval(n: nat, r: real, k: nat)
    requires 0.0 <= r < 1.0 && k < n
    ensures PickIndex(n, r) == Some(k) <==> (k as real) / (n as real) <= r < (k as real + 1.0) / (n as real)
  {
    BelowQuotient(k as real, r, n as real);
    AboveQuotient(k as real + 1.0, r, n as real);
    FloorIs(r * (n as real), k);
  }

  /** `a / c <= b` exactly when `a <= b * c`, for positive `c`. */
  lemma BelowQuotient(a: real, b: real, c: real)
    requires c > 0.0
    ensures a / c <= b <==> a <= b * c
  {
    DivThenScale(a, c);
    ScaleKeepsOrder(a / c, b, c);
  }

  /** `b < a / c` exactly when `b * c < a`, for positive `c`. */
  lemma AboveQuotient(a: real, b: real, c: real)
    requires c > 0.0
    ensures b < a / c <==> b * c < a
  {
    DivThenScale(a, c);
    ScaleKeepsOrder(b, a / c, c);
  }

  /** The floor of a value in [0, n) is an index in [0, n). */
  lemma FloorBelow(x: real, n: nat)
    requires 0.0 <= x < n as real
    ensures 0 <= x.Floor < n
  {
    assert x.Floor as real <= x;
  }

  lemma DivThenScale(a: real, c: real)
    requires c > 0.0
    ensures (a / c) * c == a
  {
  }

  /** `k` is the floor of `x` exactly when `k <= x < k + 1`. */
  lemma FloorIs(x: real, k: int)
    ensures x.Floor == k <==> k as real <= x < k as real + 1.0
  {
  }

  /** Multiplying by a positive factor keeps the order of two reals. */
  lemma ScaleKeepsOrder(a: real, b: real, c: real)
    requires c > 0.0
    ensures a <= b <==> a * c <= b * c
    ensures a < b <==> a * c < b * c
  {
    assert (b - a) * c == b * c - a * c;
  }

  /** Every index of a non-empty store can be selected. */
  lemma EveryIndexReachable(n: nat, k: nat)
    requires k < n
    ensures 0.0 <= (k as real) / (n as real) < 1.0
    ensures PickIndex(n, (k as real) / (n as real)) == Some(k)
  {
    var r := (k as real) / (n as real);
    BelowQuotient(0.0, r, n as real);
    AboveQuotient(k as real, 1.0, n as real);
    BelowQuotient(k as real, r, n as real);
    AboveQuotient(k as real + 1.0, r, n as real);
    DivThenScale(k as real, n as real);
    PickIndexInterval(n, r, k);
  }
}
