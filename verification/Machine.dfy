/** The integers of the machines the programs ran on. */
module Machine {

  const TWO31 := 0x8000_0000
  const TWO32 := 0x1_0000_0000

  /** A 32-bit int. */
  type Int32 = n: int | -TWO31 <= n < TWO31

  /** The value a 32-bit computation leaves. */
  function Wrap(n: int): (r: Int32)
    ensures -TWO31 <= n < TWO31 ==> r == n
  {
    (n + TWO31) % TWO32 - TWO31
  }

  function Pow2(n: nat): (p: nat)
    ensures p >= 1
  {
    if n == 0 then 1 else 2 * Pow2(n - 1)
  }

  lemma WrapTurns(x: int, m: int)
    ensures Wrap(x + m * TWO32) == Wrap(x)
  {
    var y := x + TWO31;
    assert (y + m * TWO32) % TWO32 == y % TWO32;
  }

  /** Appending a digit to a wrapped number is appending it and wrapping. */
  lemma WrapStep(x: int, d: int)
    ensures Wrap(Wrap(x) * 10 + d) == Wrap(x * 10 + d)
  {
    var m := (x + TWO31) / TWO32;
    assert x == Wrap(x) + m * TWO32;
    WrapTurns(Wrap(x) * 10 + d, 10 * m);
    assert x * 10 + d == Wrap(x) * 10 + d + (10 * m) * TWO32;
  }

  // ---------------------------------------------------------------- bits

  /** Bit k of b. */
  predicate Bit(b: nat, k: nat) {
    if k == 0 then b % 2 == 1 else Bit(b / 2, k - 1)
  }

  /** The n low bits of a and b put together one by one. */
  function Merge(f: (bool, bool) -> bool, a: nat, b: nat, n: nat): (r: nat)
    ensures r < Pow2(n)
  {
    if n == 0 then 0 else 2 * Merge(f, a / 2, b / 2, n - 1) + if f(a % 2 == 1, b % 2 == 1) then 1 else 0
  }

  lemma {:induction false} MergeBit(f: (bool, bool) -> bool, a: nat, b: nat, n: nat, k: nat)
    requires k < n
    ensures Bit(Merge(f, a, b, n), k) <==> f(Bit(a, k), Bit(b, k))
    decreases n
  {
    if k > 0 {
      MergeBit(f, a / 2, b / 2, n - 1, k - 1);
      assert Merge(f, a, b, n) / 2 == Merge(f, a / 2, b / 2, n - 1);
    }
  }

  /** A number of n bits is known by them. */
  lemma {:induction false} SameBits(a: nat, b: nat, n: nat)
    requires a < Pow2(n) && b < Pow2(n) && forall k :: 0 <= k < n ==> (Bit(a, k) <==> Bit(b, k))
    ensures a == b
    decreases n
  {
    if n > 0 {
      assert Bit(a, 0) <==> Bit(b, 0);
      forall k | 0 <= k < n - 1
        ensures Bit(a / 2, k) <==> Bit(b / 2, k)
      {
        assert Bit(a, k + 1) <==> Bit(b, k + 1);
      }
      SameBits(a / 2, b / 2, n - 1);
    }
  }

  lemma Pow32()
    ensures Pow2(32) == TWO32
  {
    assert Pow2(8) == 256;
    assert Pow2(16) == 65536;
    assert Pow2(24) == 16777216;
  }

  /** An int as an unsigned number, and back. */
  function Unsigned(n: Int32): (u: nat)
    ensures u < TWO32
  {
    if n < 0 then n + TWO32 else n
  }

  function Signed(u: nat): (n: Int32)
    requires u < TWO32
    ensures Unsigned(n) == u
  {
    if u < TWO31 then u else u - TWO32
  }
}
