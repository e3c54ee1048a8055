/** Small value types and arithmetic shared by the other modules. */
module Prelude {

  datatype Option<+T> = None | Some(value: T)

  /** Smallest integer not below `x` (math.ceil). */
  function Ceil(x: real): (n: int)
    ensures n as real - 1.0 < x <= n as real
  {
    -((-x).Floor)
  }

  function Max(x: int, y: int): int {
    if x < y then y else x
  }

  function Min(x: int, y: int): int {
    if y < x then y else x
  }

  function MaxReal(x: real, y: real): real {
    if x < y then y else x
  }

  function MinReal(x: real, y: real): real {
    if y < x then y else x
  }

  function Get<K, V>(m: map<K, V>, k: K): Option<V> {
    if k in m then Some(m[k]) else None
  }

  lemma ScaleSum(x: real, y: real, k: real)
    ensures (x + y) * k == x * k + y * k
  {
  }

  lemma ScaleMonotone(x: real, y: real, k: real)
    requires x <= y && 0.0 <= k
    ensures x * k <= y * k
  {
  }

  lemma ScaleStrict(x: real, y: real, k: real)
    requires x < y && 0.0 < k
    ensures x * k < y * k
  {
    assert (y - x) * k > 0.0;
  }

  lemma QuotientAtMost(x: real, k: real, q: real)
    requires 0.0 < k
    ensures x <= q * k <==> x / k <= q
  {
    assert (x / k) * k == x;
    if x / k <= q {
      ScaleMonotone(x / k, q, k);
    } else {
      ScaleStrict(q, x / k, k);
    }
  }

  lemma AtLeastCeil(x: real, n: int)
    ensures x <= n as real <==> Ceil(x) <= n
  {
    if x <= n as real {
      assert Ceil(x) as real - 1.0 < n as real;
    }
  }
}
