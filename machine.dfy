/** Machine-level types shared by the model: 64-bit unsigned words, their
    wrap-around addition, the conversion from signed values, the range of
    `long long` that `strtoll` saturates to, and Option. */
module Machine {

  const TWO_64: int := 0x1_0000_0000_0000_0000

  /** The range of `long long`; `strtoll` saturates at either end. */
  const LLONG_MAX: int := 0x7FFF_FFFF_FFFF_FFFF
  const LLONG_MIN: int := -0x8000_0000_0000_0000

  /** `unsigned long`, `bfd_vma`, `bfd_size_type` and `size_t` on a 64-bit host. */
  type u64 = x: int | 0 <= x < TWO_64

  /** C addition of two 64-bit unsigned values: the sum modulo 2^64. */
  function AddU64(a: u64, b: u64): (r: u64)
    ensures r == (a + b) % TWO_64
    ensures a + b < TWO_64 ==> r == a + b
    ensures a + b >= TWO_64 ==> r < a && r < b
  {
    if a + b < TWO_64 then a + b else a + b - TWO_64
  }

  /** C conversion of a signed value to a 64-bit unsigned one: modulo 2^64. */
  function ToU64(v: int): (r: u64)
    ensures r == v % TWO_64
    ensures 0 <= v < TWO_64 ==> r == v
    ensures -TWO_64 <= v < 0 ==> r == v + TWO_64
  {
    if 0 <= v < TWO_64 then v
    else if -TWO_64 <= v < 0 then v + TWO_64
    else v % TWO_64
  }

  datatype Option<+T> = None | Some(value: T)
}
