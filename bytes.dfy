/** Fixed-width integers of the C sources: bytes, 32-bit unsigned words, and the
    bitwise operators that the interpreters apply to them. */
module Bytes {

  datatype Option<T> = None | Some(value: T)

  /** `uint8_t` / `unsigned char`. */
  type byte = x: int | 0 <= x < 256

  /** `uint32_t` / `unsigned int`. */
  type u32 = x: int | 0 <= x < 0x1_0000_0000

  const U32Modulus: int := 0x1_0000_0000

  /** Size of RAM and ROM: `1 << (WORD_SIZE * 8)` with a 3-byte word. */
  const MemSize: nat := 0x100_0000

  /** A RAM or ROM image. */
  type Memory = s: seq<byte> | |s| == MemSize witness seq(MemSize, _ => 0)

  function Pow256(n: nat): (r: nat)
    ensures r >= 1
  {
    if n == 0 then 1 else 256 * Pow256(n - 1)
  }

  function Pow2(n: nat): (r: nat)
    ensures r >= 1
  {
    if n == 0 then 1 else 2 * Pow2(n - 1)
  }

  lemma {:induction false} Pow256Split(n: nat)
    requires n >= 1
    ensures Pow256(n) == 256 * Pow256(n - 1)
    ensures Pow256(n) == Pow256(n - 1) * 256
  {
  }

  lemma {:induction false} Pow256Monotone(m: nat, n: nat)
    requires m <= n
    ensures Pow256(m) <= Pow256(n)
  {
    if m < n {
      Pow256Monotone(m, n - 1);
    }
  }

  /** `(v >> (8 * i)) & 0xFF`: byte number i of v, counting from the least significant. */
  function ByteOf(v: nat, i: nat): byte
  {
    (v / Pow256(i)) % 256
  }

  /** `a & b` on `uint32_t`. */
  function And32(a: u32, b: u32): u32
  {
    ((a as bv32) & (b as bv32)) as int
  }

  /** `a ^ b` on `uint32_t`. */
  function Xor32(a: u32, b: u32): u32
  {
    ((a as bv32) ^ (b as bv32)) as int
  }

  /** `v >> k` on `uint32_t` (k < 32). */
  function Shr32(v: u32, k: nat): u32
  {
    if k == 0 then v else Shr32(v / 2, k - 1)
  }

  lemma DivShrinks(v: nat, d: nat)
    requires d >= 1
    ensures v / d <= v
  {
    var q, r := v / d, v % d;
    assert v == q * d + r;
    assert q <= q * d by { MulGrows(q, d); }
  }

  /** Euclidean division is unique: a quotient and a remainder in range are
      the ones `/` and `%` give. */
  lemma DivModUnique(v: int, d: int, q: int, r: int)
    requires d >= 1 && 0 <= r < d && v == d * q + r
    ensures v / d == q && v % d == r
  {
    var q0, r0 := v / d, v % d;
    assert d * (q - q0) == r0 - r;
    if q - q0 >= 1 {
      MulGrows(d, q - q0);
    } else if q0 - q >= 1 {
      MulGrows(d, q0 - q);
    }
  }

  lemma MulGrows(q: nat, d: nat)
    requires d >= 1
    ensures q <= q * d
  {
    assert q * d == q + q * (d - 1);
  }

  /** `v << k` on `uint32_t` (k < 32): the bits shifted past bit 31 are lost. */
  function Shl32(v: u32, k: nat): u32
  {
    (v * Pow2(k)) % U32Modulus
  }

  /** `a + b`, `a - b` and `a * b` on `uint32_t`, which wrap modulo 2^32. */
  function Add32(a: u32, b: u32): u32 { (a + b) % U32Modulus }
  function Sub32(a: u32, b: u32): u32 { (a - b) % U32Modulus }
  function Mul32(a: u32, b: u32): u32 { (a * b) % U32Modulus }

  /** Pow256(w) divides 2^32, so reducing modulo 2^32 first, as `unsigned int`
      arithmetic does, leaves the last w bytes as they were, also for a
      negative difference. */
  lemma WrapThenTruncate(x: int, w: nat)
    requires 1 <= w <= 4
    ensures (x % U32Modulus) % Pow256(w) == x % Pow256(w)
  {
    if w == 1 {
      assert Pow256(1) == 0x100;
      WrapThenByte(x);
    } else if w == 2 {
      assert Pow256(2) == 0x1_0000;
      WrapThenShort(x);
    } else if w == 3 {
      assert Pow256(3) == 0x100_0000;
      WrapThenWord(x);
    } else {
      assert Pow256(4) == U32Modulus;
    }
  }

  lemma WrapThenByte(x: int)
    ensures (x % 0x1_0000_0000) % 0x100 == x % 0x100
  {
  }

  lemma WrapThenShort(x: int)
    ensures (x % 0x1_0000_0000) % 0x1_0000 == x % 0x1_0000
  {
  }

  lemma WrapThenWord(x: int)
    ensures (x % 0x1_0000_0000) % 0x100_0000 == x % 0x100_0000
  {
  }
}
