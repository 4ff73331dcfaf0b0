/** Machine words and the small arithmetic helpers that every part of the kernel shares. */
module Words {

  const TWO_32: int := 0x1_0000_0000
  const TWO_64: int := 0x1_0000_0000_0000_0000
  const MAX_U64: int := TWO_64 - 1
  const PAGE_SIZE: int := 4096

  /** Where the higher-half direct map of physical memory starts. */
  const HHDM_BASE: int := 0xffff_8000_0000_0000

  /** A 64-bit word, kept as a mathematical integer: every wrap, saturation and overflow is written out. */
  type u64 = x: int | 0 <= x < TWO_64

  datatype Option<+T> = None | Some(value: T)

  function Min(a: int, b: int): int { if a < b then a else b }

  function Max(a: int, b: int): int { if a < b then b else a }

  function SaturatingAdd(a: u64, b: u64): u64 { Min(a + b, MAX_U64) }

  function SaturatingMul(a: u64, b: u64): u64
  {
    assert a * b >= 0;
    Min(a * b, MAX_U64)
  }

  function WrappingAdd(a: u64, b: u64): u64 { (a + b) % TWO_64 }

  /** Masking off the low twelve bits. */
  function PageDown(x: u64): (r: u64)
    ensures r <= x < r + PAGE_SIZE
    ensures r % PAGE_SIZE == 0
  {
    x - x % PAGE_SIZE
  }

  /** Rounding up to a page. The addition is checked: it panics (None) when it leaves the 64-bit range. */
  function PageUp(x: u64): (r: Option<u64>)
    ensures r.None? <==> x > TWO_64 - PAGE_SIZE
    ensures r.Some? ==> x <= r.value < x + PAGE_SIZE && r.value % PAGE_SIZE == 0
  {
    if x + (PAGE_SIZE - 1) >= TWO_64 then None else Some(PageDown(x + (PAGE_SIZE - 1)))
  }
}
