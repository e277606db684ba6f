/** Ring buffers whose counters wrap around. */
module Counters {

  /** If the size of the ring divides the range of the counter, the wrapped counter
      names the same slot as the unwrapped one. */
  lemma WrappedSlot(k: nat, size: nat, times: nat)
    requires size > 0 && times > 0
    ensures size * times > 0
    ensures k % (size * times) % size == k % size
  {
    var wrap := size * times;
    var q, r := k / wrap, k % wrap;
    assert k == wrap * q + r;
    assert wrap * q == size * (times * q);
    Multiples(size, times * q, r);
  }

  lemma {:induction false} Multiples(size: nat, a: nat, r: nat)
    requires size > 0
    ensures (size * a + r) % size == r % size
  {
    if a > 0 {
      Multiples(size, a - 1, r);
      var x := size * (a - 1) + r;
      assert size * a + r == x + size;
      OneMore(size, x);
    }
  }

  lemma OneMore(size: nat, x: nat)
    requires size > 0
    ensures (x + size) % size == x % size
  {
    var q, r := x / size, x % size;
    assert x + size == size * (q + 1) + r;
    Remainder(size, q + 1, r, x + size);
  }

  lemma Remainder(size: nat, q: nat, r: nat, x: nat)
    requires r < size && x == size * q + r
    ensures x % size == r
  {
    var q', r' := x / size, x % size;
    assert size * q + r == size * q' + r';
    if q > q' {
      Above(size, q', q);
    } else if q < q' {
      Above(size, q, q');
    }
  }

  lemma {:induction false} Above(size: nat, a: nat, b: nat)
    requires a < b
    ensures size * b >= size * a + size
  {
    assert size * b == size * (b - 1) + size;
    if a < b - 1 { Above(size, a, b - 1); }
  }
}
