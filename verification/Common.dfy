/** Value types and a fact of arithmetic shared by every model in this project. */
module Common {

  datatype Option<+T> = None | Some(value: T)

  /** An octet of a Go []byte. */
  type Byte = x: int | 0 <= x < 256

  lemma QuotientIsUnique(n: nat, b: nat, q: nat)
    requires b > 0 && q * b <= n < q * b + b
    ensures n / b == q
  {
    var k := n / b;
    assert k * b <= n < k * b + b;
    if k < q {
      MulMonotone(k + 1, q, b);
    } else if q < k {
      MulMonotone(q + 1, k, b);
    }
  }

  lemma MulMonotone(x: nat, y: nat, b: nat)
    requires x <= y
    ensures x * b <= y * b
  {
  }
}
