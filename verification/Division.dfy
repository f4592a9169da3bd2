/** Division with a divisor that is not a constant. */
module Division {

  lemma Scaled(k: int, t: int)
    requires k >= 0
    ensures t >= 1 ==> k * t >= k
    ensures t <= -1 ==> k * t <= -k
  {
    if t >= 1 {
      assert k * t == k + k * (t - 1);
    } else if t <= -1 {
      assert k * t == -k + k * (t + 1);
    }
  }

  lemma DivisionUnique(k: nat, q: int, r: nat, d: int, m: nat)
    requires k * q + r == k * d + m && r < k && m < k
    ensures q == d && r == m
  {
    assert k * (q - d) == m - r;
    Scaled(k, q - d);
  }

  /** The remainder is what is left over, whichever the quotient. */
  lemma ModUnique(q: int, r: nat, k: nat)
    requires r < k
    ensures (k * q + r) % k == r
  {
    var x := k * q + r;
    DivisionUnique(k, q, r, x / k, x % k);
  }

  /** Adding the divisor leaves the remainder. */
  lemma ModAdd(x: int, k: nat, t: int)
    requires k > 0
    ensures (x + k * t) % k == x % k
  {
    assert x + k * t == k * (x / k + t) + x % k;
    ModUnique(x / k + t, x % k, k);
  }
}
