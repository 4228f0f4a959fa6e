/** Shared vocabulary: optional values, Go's wrapping 64-bit integers, list search. */
module Base {

  datatype Option<+T> = None | Some(value: T)

  const TWO_63 := 0x8000_0000_0000_0000
  const TWO_64 := 0x1_0000_0000_0000_0000

  /** The int64 that Go's + and * leave behind when the exact result is x. */
  function Wrap64(x: int): (r: int)
    ensures -TWO_63 <= r < TWO_63
    ensures r == x <==> -TWO_63 <= x < TWO_63
  {
    (x + TWO_63) % TWO_64 - TWO_63
  }

  /** Wrapping an intermediate result does not change the final wrapped sum. */
  lemma WrapSum(x: int, y: int)
    ensures Wrap64(Wrap64(x) + y) == Wrap64(x + y)
  {
    var q := (x + TWO_63) / TWO_64;
    assert Wrap64(x) + y + TWO_63 == x + y + TWO_63 - q * TWO_64;
    ModShift(x + y + TWO_63, q);
  }

  lemma ModShift(a: int, q: int)
    ensures (a - q * TWO_64) % TWO_64 == a % TWO_64
  {
    var k := a / TWO_64;
    assert a - q * TWO_64 == (k - q) * TWO_64 + a % TWO_64;
  }

  function Get<K>(m: map<K, int>, k: K): int {
    if k in m then m[k] else 0
  }
}
