/** Unsigned bit arithmetic on natural numbers: the bitwise AND the arena's
    alignment code relies on, the bit test for powers of two, and the fact
    that masking with `~(a - 1)` rounds down to a multiple of `a`. */
module Bits {

  function Pow2(k: nat): (r: nat)
    ensures r >= 1
  {
    if k == 0 then 1 else 2 * Pow2(k - 1)
  }

  lemma {:induction false} Pow2Add(a: nat, b: nat)
    ensures Pow2(a + b) == Pow2(a) * Pow2(b)
    decreases a
  {
    if a > 0 {
      Pow2Add(a - 1, b);
      assert Pow2(a + b) == 2 * Pow2(a - 1 + b);
    }
  }

  /** The size of the 64-bit word. */
  lemma Pow2Of64()
    ensures Pow2(64) == 0x1_0000_0000_0000_0000
  {
    assert Pow2(2) == 4;
    Pow2Add(2, 2);
    Pow2Add(4, 4);
    Pow2Add(8, 8);
    Pow2Add(16, 16);
    Pow2Add(32, 32);
  }

  /** Bitwise AND of two unsigned numbers, bit by bit from the lowest. */
  function And(a: nat, b: nat): nat
    decreases a
  {
    if a == 0 || b == 0 then 0
    else 2 * And(a / 2, b / 2) + (if a % 2 == 1 && b % 2 == 1 then 1 else 0)
  }

  /** Reference definition: `n` is 1, 2, 4, 8, ... */
  predicate IsPowerOfTwo(n: nat)
    decreases n
  {
    n == 1 || (n > 1 && n % 2 == 0 && IsPowerOfTwo(n / 2))
  }

  /** Euclidean division is unique: any decomposition `x == a*t + r` with
      `0 <= r < a` is the one `/` and `%` compute. */
  lemma ModUnique(x: int, a: int, t: int, r: int)
    requires a > 0 && 0 <= r < a && x == a * t + r
    ensures x % a == r && x / a == t
  {
    var q, m := x / a, x % a;
    assert x == a * q + m;
    if t > q {
      MulMono(a, t - q, 1);
      assert false;
    } else if t < q {
      MulMono(a, q - t, 1);
      assert false;
    }
  }

  lemma MulMono(a: int, x: int, y: int)
    requires a >= 0 && x >= y
    ensures a * x >= a * y
  {
    assert a * x - a * y == a * (x - y);
  }

  /** The remainder modulo an even number splits into the remainder of the
      halved quotient and the lowest bit. */
  lemma ModHalf(x: nat, a: nat)
    requires a >= 2 && a % 2 == 0
    ensures x % a == 2 * ((x / 2) % (a / 2)) + x % 2
  {
    var h, q, r0 := a / 2, x / 2, x % 2;
    var t, s := q / h, q % h;
    assert q == h * t + s;
    assert x == 2 * q + r0;
    assert 2 * (h * t) == a * t;
    assert x == a * t + (2 * s + r0);
    ModUnique(x, a, t, 2 * s + r0);
  }

  lemma {:induction false} AndSelf(x: nat)
    ensures And(x, x) == x
    decreases x
  {
    if x != 0 {
      AndSelf(x / 2);
    }
  }

  /** A conjunction of bits never exceeds its first operand. */
  lemma {:induction false} AndBelow(a: nat, b: nat)
    ensures And(a, b) <= a
    decreases a
  {
    if a != 0 && b != 0 {
      AndBelow(a / 2, b / 2);
    }
  }

  lemma AndEven(x: nat, m: nat)
    requires m % 2 == 0
    ensures And(x, m) == 2 * And(x / 2, m / 2)
  {
  }

  /** A mask of `w` one-bits leaves every `w`-bit number unchanged. */
  lemma {:induction false} AndOnes(x: nat, w: nat)
    requires x < Pow2(w)
    ensures And(x, Pow2(w) - 1) == x
    decreases w
  {
    if x != 0 {
      assert w > 0;
      AndOnes(x / 2, w - 1);
      assert (Pow2(w) - 1) / 2 == Pow2(w - 1) - 1;
    }
  }

  /** `v & (v - 1) == 0` holds exactly for the powers of two. */
  lemma {:induction false} PowerOfTwoBitTest(v: nat)
    requires v > 0
    ensures And(v, v - 1) == 0 <==> IsPowerOfTwo(v)
    decreases v
  {
    if v == 1 {
    } else if v % 2 == 1 {
      assert (v - 1) / 2 == v / 2;
      AndSelf(v / 2);
      assert And(v, v - 1) == 2 * And(v / 2, v / 2);
    } else {
      assert (v - 1) / 2 == v / 2 - 1;
      assert And(v, v - 1) == 2 * And(v / 2, v / 2 - 1);
      PowerOfTwoBitTest(v / 2);
    }
  }

  /** In a `w`-bit word, `x & ~(a - 1)` for a power of two `a` clears the
      low bits of `x`, i.e. rounds `x` down to a multiple of `a`. */
  lemma {:induction false} MaskRoundsDown(x: nat, a: nat, w: nat)
    requires IsPowerOfTwo(a) && a <= Pow2(w) && x < Pow2(w)
    ensures And(x, Pow2(w) - a) == x - x % a
    decreases a
  {
    if a == 1 {
      AndOnes(x, w);
    } else {
      assert w > 0;
      var m := Pow2(w) - a;
      assert m / 2 == Pow2(w - 1) - a / 2;
      AndEven(x, m);
      MaskRoundsDown(x / 2, a / 2, w - 1);
      ModHalf(x, a);
    }
  }

  /** Rounding down to a multiple: the result is a multiple of `a` and lies
      in `(x - a, x]`. */
  lemma RoundDownFacts(x: nat, a: nat)
    requires a > 0
    ensures (x - x % a) % a == 0
    ensures x - a < x - x % a <= x
  {
    ModUnique(x - x % a, a, x / a, 0);
  }
}
