/**
 * Compile-time configuration of the image evolver: the image geometry
 * constants and the recursive integer logarithm used to derive BOX_COUNT.
 */
module Config {

  /** An unsigned 64-bit integer (`blt::u64` / `size_t`). */
  type U64 = x: nat | x < 0x1_0000_0000_0000_0000

  const IMAGE_SIZE: nat := 128
  const IMAGE_PADDING: nat := 16
  const POP_SIZE: nat := 64
  const CHANNELS: nat := 3
  const DATA_SIZE: nat := IMAGE_SIZE * IMAGE_SIZE
  const DATA_CHANNELS_SIZE: nat := DATA_SIZE * CHANNELS
  const BOX_COUNT: nat := Log2(IMAGE_SIZE / 2)

  /** 2 to the power k. */
  function Pow2(k: nat): (p: nat)
    ensures p >= 1
  {
    if k == 0 then 1 else 2 * Pow2(k - 1)
  }

  /**
   * The recursive logarithm of config.h: one more than the number of times
   * n can be halved before it drops below 2. It is 1 exactly for n < 2,
   * so it counts the binary digits of n (and gives 1 for 0).
   */
  function Log2(n: nat): (r: nat)
    ensures r >= 1
    ensures r == 1 <==> n < 2
    decreases n
  {
    if n < 2 then 1 else 1 + Log2(n / 2)
  }

  /** The logarithm of a power of two: log2(2^k) == k + 1. */
  lemma {:induction false} Log2OfPow2(k: nat)
    ensures Log2(Pow2(k)) == k + 1
  {
    if k > 0 {
      Log2OfPow2(k - 1);
      assert Pow2(k) / 2 == Pow2(k - 1);
    }
  }

  /** Log2 is monotone: a larger argument never has a smaller logarithm. */
  lemma {:induction false} Log2Monotone(a: nat, b: nat)
    requires a <= b
    ensures Log2(a) <= Log2(b)
    decreases b
  {
    if a >= 2 {
      Log2Monotone(a / 2, b / 2);
    }
  }

  /**
   * Log2(n) is the number of binary digits of a positive n:
   * 2^(Log2(n) - 1) <= n < 2^Log2(n).
   */
  lemma {:induction false} Log2Brackets(n: nat)
    requires n >= 1
    ensures Pow2(Log2(n) - 1) <= n < Pow2(Log2(n))
    decreases n
  {
    if n >= 2 {
      Log2Brackets(n / 2);
      var r := Log2(n / 2);
      assert Log2(n) == r + 1;
      assert Pow2(r) == 2 * Pow2(r - 1);
      assert Pow2(r + 1) == 2 * Pow2(r);
    }
  }

  /** BOX_COUNT is log2(64) == 7. */
  lemma BoxCountIsSeven()
    ensures BOX_COUNT == 7
  {
    assert IMAGE_SIZE / 2 == Pow2(6);
    Log2OfPow2(6);
  }

  /** The image geometry: 128 x 128 pixels of three channels. */
  lemma ImageGeometry()
    ensures DATA_SIZE == IMAGE_SIZE * IMAGE_SIZE == 16384
    ensures DATA_CHANNELS_SIZE == DATA_SIZE * CHANNELS == 49152
  {
  }
}
