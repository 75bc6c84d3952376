/** Fixed-width words of the wire formats, and the modular comparison of 32-bit sequence numbers. */
module Words {
  type byte = x: int | 0 <= x < 0x100
  type u16 = x: int | 0 <= x < 0x1_0000
  type u32 = x: int | 0 <= x < 0x1_0000_0000
  type u64 = x: int | 0 <= x < 0x1_0000_0000_0000_0000

  const HALF32: int := 0x8000_0000

  /** The 32-bit word that stands for an unbounded number. */
  function Wrap32(x: int): u32 {
    x % 0x1_0000_0000
  }

  /** The conversion int32(x) of a 32-bit word. */
  function Signed32(x: u32): int {
    if x >= 0x8000_0000 then x - 0x1_0000_0000 else x
  }

  /** int32(a - b): the signed distance from b to a. */
  function Diff32(a: u32, b: u32): int {
    Signed32(Wrap32(a - b))
  }

  predicate SeqLess(a: u32, b: u32) {
    Diff32(a, b) < 0
  }

  function Min(a: int, b: int): int {
    if a <= b then a else b
  }

  /** Signed 32-bit distance is the true distance of two numbers less than 2^31 apart. */
  lemma DiffOfWraps(x: int, y: int)
    requires -HALF32 <= x - y < HALF32
    ensures Diff32(Wrap32(x), Wrap32(y)) == x - y
    ensures SeqLess(Wrap32(x), Wrap32(y)) <==> x < y
    ensures Wrap32(x) == Wrap32(y) <==> x == y
  {
    SubtractWraps(x, y);
    WrapOfSmall(x - y);
  }

  lemma WrapOfSmall(d: int)
    requires -HALF32 <= d < HALF32
    ensures Signed32(Wrap32(d)) == d
  {
  }

  lemma WrapNear(x: int)
    requires -0x1_0000_0000 <= x < 0x1_0000_0000
    ensures Wrap32(x) == if x >= 0 then x else x + 0x1_0000_0000
  {
  }

  lemma WrapUnique(x: int, k: int, r: u32)
    requires x == k * 0x1_0000_0000 + r
    ensures Wrap32(x) == r
  {
  }

  /** Word arithmetic agrees with unbounded arithmetic, read back as a word. */
  lemma SubtractWraps(x: int, y: int)
    ensures Wrap32(Wrap32(x) - Wrap32(y)) == Wrap32(x - y)
  {
    var k := x / 0x1_0000_0000 - y / 0x1_0000_0000;
    var d := Wrap32(x) - Wrap32(y);
    if d >= 0 {
      WrapUnique(x - y, k, d);
    } else {
      WrapUnique(x - y, k - 1, d + 0x1_0000_0000);
      WrapUnique(d, -1, d + 0x1_0000_0000);
    }
  }

  lemma AddToWrap(x: int, y: int)
    ensures Wrap32(Wrap32(x) + y) == Wrap32(x + y)
  {
    var k := (Wrap32(x) + y) / 0x1_0000_0000;
    WrapUnique(x + y, x / 0x1_0000_0000 + k, Wrap32(Wrap32(x) + y));
  }

  /** A quotient and a remainder in range are the quotient and the remainder. */
  lemma ModUnique(x: int, m: int, q: int, r: int)
    requires 0 <= r < m && x == q * m + r
    ensures x % m == r && x / m == q
  {
    var d := q - x / m;
    assert x == x / m * m + x % m;
    assert d * m == q * m - x / m * m;
    if d >= 1 {
      TimesAtLeast(d, m);
    } else if d <= -1 {
      TimesAtLeast(-d, m);
    }
  }

  lemma TimesAtLeast(d: int, m: int)
    requires d >= 1 && m >= 0
    ensures d * m >= m
  {
    assert d * m == (d - 1) * m + m;
  }

  /** Reducing first by a multiple of m changes nothing modulo m. */
  lemma ModOfMod(x: nat, w: nat, k: nat, m: nat)
    requires m > 0 && w > 0 && w == k * m
    ensures x % w % m == x % m
  {
    var q, r := x / w, x % w;
    var q', r' := r / m, r % m;
    assert q * w == q * k * m;
    assert (q * k + q') * m == q * k * m + q' * m;
    ModUnique(x, m, q * k + q', r');
  }

  // ---- Little-endian and big-endian fields ----------------------------------------------------

  function Pow256(k: nat): nat {
    if k == 0 then 1 else 256 * Pow256(k - 1)
  }

  lemma Pow256Values()
    ensures Pow256(1) == 0x100 && Pow256(2) == 0x1_0000 && Pow256(4) == 0x1_0000_0000
    ensures Pow256(8) == 0x1_0000_0000_0000_0000
  {
    assert Pow256(3) == 256 * Pow256(2);
    assert Pow256(5) == 256 * Pow256(4) && Pow256(6) == 256 * Pow256(5) && Pow256(7) == 256 * Pow256(6);
  }

  /** n in k bytes, least significant first. */
  function ToLE(n: nat, k: nat): (b: seq<byte>)
    ensures |b| == k
  {
    if k == 0 then [] else [n % 256] + ToLE(n / 256, k - 1)
  }

  function FromLE(b: seq<byte>): nat {
    if b == [] then 0 else var b0: int := b[0]; b0 + 256 * FromLE(b[1..])
  }

  lemma {:induction false} LERoundTrip(n: nat, k: nat)
    requires n < Pow256(k)
    ensures FromLE(ToLE(n, k)) == n
  {
    if k > 0 {
      LERoundTrip(n / 256, k - 1);
      assert ToLE(n, k)[1..] == ToLE(n / 256, k - 1);
    }
  }

  // ---- Powers of two --------------------------------------------------------------------------

  function Pow2(k: nat): (p: nat)
    ensures p > 0
  {
    if k == 0 then 1 else 2 * Pow2(k - 1)
  }

  lemma {:induction false} Pow2Adds(a: nat, b: nat)
    ensures Pow2(a + b) == Pow2(a) * Pow2(b)
    decreases b
  {
    if b > 0 {
      Pow2Adds(a, b - 1);
      assert Pow2(a) * (2 * Pow2(b - 1)) == 2 * (Pow2(a) * Pow2(b - 1));
    }
  }

  lemma Pow2Small()
    ensures Pow2(2) == 4 && Pow2(3) == 8 && Pow2(8) == 256
  {
    assert Pow2(4) == 16;
  }

  lemma Pow2Values()
    ensures Pow2(3) == 8 && Pow2(32) == 0x1_0000_0000
    ensures Pow2(62) == 0x4000_0000_0000_0000 && Pow2(64) == 0x1_0000_0000_0000_0000
  {
    hide Pow2;
    Pow2Small();
    Pow2Adds(8, 8);
    Pow2Adds(16, 16);
    Pow2Adds(32, 32);
    Pow2Adds(62, 2);
  }

  lemma {:induction false} Pow2Monotone(a: nat, b: nat)
    requires a <= b
    ensures Pow2(a) <= Pow2(b) && (a < b ==> Pow2(a) < Pow2(b))
    decreases b - a
  {
    if a < b { Pow2Monotone(a, b - 1); }
  }
}
