/**
 * JavaScript's 32-bit integer operators on integral numbers: ToInt32,
 * ToUint32, `&`, `|`, `^`, `~`, `<<` and `>>`, written out on unbounded
 * integers so that wrap-around is explicit.
 */
module JsInt {
  const TWO31: int := 0x8000_0000
  const TWO32: int := 0x1_0000_0000

  function Pow2(n: nat): (r: nat)
    ensures r >= 1
  {
    if n == 0 then 1 else 2 * Pow2(n - 1)
  }

  /** ToUint32: the value modulo 2^32. */
  function ToUint32(x: int): (r: nat)
    ensures r < TWO32
    ensures 0 <= x < TWO32 ==> r == x
  {
    x % TWO32
  }

  /** ToInt32: the value modulo 2^32, read as a two's-complement number. */
  function ToInt32(x: int): (r: int)
    ensures -TWO31 <= r < TWO31
    ensures -TWO31 <= x < TWO31 ==> r == x
    ensures ToUint32(r) == ToUint32(x)
  {
    var u := ToUint32(x);
    if u >= TWO31 then u - TWO32 else u
  }

  datatype BitOp = And | Or | Xor

  function CombineBit(op: BitOp, a: bool, b: bool): bool
  {
    match op
    case And => a && b
    case Or => a || b
    case Xor => a != b
  }

  /** The low `n` bits of `a op b`, bit by bit from the least significant. */
  function Bits(op: BitOp, a: nat, b: nat, n: nat): (r: nat)
    ensures r < Pow2(n)
  {
    if n == 0 then 0
    else 2 * Bits(op, a / 2, b / 2, n - 1) + (if CombineBit(op, a % 2 == 1, b % 2 == 1) then 1 else 0)
  }

  /** JavaScript `a & b`, `a | b`, `a ^ b`. */
  function Bitwise(op: BitOp, a: int, b: int): int
  {
    ToInt32(Bits(op, ToUint32(a), ToUint32(b), 32))
  }

  /** JavaScript `~a`. */
  function BitNot(a: int): (r: int)
    ensures -TWO31 <= r < TWO31
  {
    -ToInt32(a) - 1
  }

  /** JavaScript `a << b`: the shift count is taken modulo 32 and the result wraps to 32 bits. */
  function ShiftLeft(a: int, b: int): int
  {
    ToInt32(ToUint32(a) * Pow2(ToUint32(b) % 32))
  }

  /** JavaScript `a >> b`: sign-propagating, so it rounds toward minus infinity. */
  function ShiftRight(a: int, b: int): int
  {
    ToInt32(a) / Pow2(ToUint32(b) % 32)
  }

  // ---------------------------------------------------------------------------
  // Facts used by the instruction encoding and the pixel code

  lemma {:induction false} BitsOrZero(a: nat, n: nat)
    requires a < Pow2(n)
    ensures Bits(Or, a, 0, n) == a
  {
    if n > 0 {
      BitsOrZero(a / 2, n - 1);
    }
  }

  /** OR-ing a value below 2^m into a multiple of 2^m adds it. */
  lemma {:induction false} BitsOrShifted(k: nat, i: nat, m: nat, n: nat)
    requires i < Pow2(m) && k < Pow2(n)
    ensures k * Pow2(m) < Pow2(m + n)
    ensures Bits(Or, k * Pow2(m), i, m + n) == k * Pow2(m) + i
  {
    if m == 0 {
      BitsOrZero(k, n);
    } else {
      var x := k * Pow2(m);
      assert x == 2 * (k * Pow2(m - 1));
      assert x / 2 == k * Pow2(m - 1) && x % 2 == 0;
      BitsOrShifted(k, i / 2, m - 1, n);
      assert m + n - 1 == (m - 1) + n;
      assert Pow2(m + n) == 2 * Pow2(m - 1 + n);
    }
  }

  lemma {:induction false} BitsAndZero(a: nat, n: nat)
    ensures Bits(And, a, 0, n) == 0
  {
    if n > 0 {
      BitsAndZero(a / 2, n - 1);
    }
  }

  /** AND-ing with 2^m - 1 keeps the low m bits. */
  lemma BitsAndMask(a: nat, m: nat, n: nat)
    requires m <= n
    ensures Bits(And, a, Pow2(m) - 1, n) == a % Pow2(m)
  {
    BitsAndLow(a, m, n);
    LowIsMod(a, m);
  }

  /** The low `m` bits of `a`, from the least significant. */
  function Low(a: nat, m: nat): nat
  {
    if m == 0 then 0 else 2 * Low(a / 2, m - 1) + a % 2
  }

  lemma {:induction false} BitsAndLow(a: nat, m: nat, n: nat)
    requires m <= n
    ensures Bits(And, a, Pow2(m) - 1, n) == Low(a, m)
  {
    if m == 0 {
      BitsAndZero(a, n);
    } else {
      BitsAndLow(a / 2, m - 1, n - 1);
      assert Pow2(m) - 1 == 2 * (Pow2(m - 1) - 1) + 1;
      BitsAndStep(a, Pow2(m - 1) - 1, n);
    }
  }

  lemma {:induction false} LowIsMod(a: nat, m: nat)
    ensures Low(a, m) == a % Pow2(m)
  {
    if m > 0 {
      LowIsMod(a / 2, m - 1);
      ModHalves(a, m);
    }
  }

  /** The lowest bit of `a & (2h + 1)` is `a`'s own; the rest is `(a / 2) & h`. */
  lemma BitsAndStep(a: nat, half: nat, n: nat)
    requires n > 0
    ensures Bits(And, a, 2 * half + 1, n) == 2 * Bits(And, a / 2, half, n - 1) + a % 2
  {
    ModUnique(2 * half + 1, 2, half, 1);
  }

  lemma ModHalves(a: nat, m: nat)
    requires m >= 1
    ensures 2 * ((a / 2) % Pow2(m - 1)) + a % 2 == a % Pow2(m)
  {
    var q, r := a / 2, a % 2;
    var t, s := q / Pow2(m - 1), q % Pow2(m - 1);
    assert a == Pow2(m) * t + (2 * s + r);
    ModUnique(a, Pow2(m), t, 2 * s + r);
  }

  lemma ModUnique(a: int, d: nat, t: int, u: int)
    requires d > 0 && 0 <= u < d && a == d * t + u
    ensures a % d == u && a / d == t
  {
    var q, r := a / d, a % d;
    assert d * (t - q) == r - u;
    if t > q {
      MulAtLeast(d, t - q);
    } else if t < q {
      MulAtLeast(d, q - t);
    }
  }

  /** Dividing a 32-bit signed number by a positive number stays in that range, as `>>` does. */
  lemma DivInRange(t: int, p: int)
    requires p >= 1 && -TWO31 <= t < TWO31
    ensures -TWO31 <= t / p < TWO31
  {
    var q, r := t / p, t % p;
    assert t == p * q + r && 0 <= r < p;
  }

  lemma MulAtLeast(d: nat, x: int)
    requires x >= 1
    ensures d * x >= d
  {
  }

  lemma Pow2Values()
    ensures Pow2(8) == 256 && Pow2(13) == 8192 && Pow2(16) == 65536 && Pow2(32) == TWO32
  {
    assert Pow2(4) == 16;
    assert Pow2(8) == 256;
    assert Pow2(12) == 4096;
    assert Pow2(16) == 65536;
    assert Pow2(24) == 16777216;
  }

  /** `x & 0xff` is the low byte of `x`, also for negative `x`. */
  lemma AndLowByte(x: int)
    ensures Bitwise(And, x, 0xff) == x % 256
  {
    Pow2Values();
    BitsAndMask(ToUint32(x), 8, 32);
    var u := ToUint32(x);
    assert x == TWO32 * (x / TWO32) + u;
    assert TWO32 == 256 * 16777216;
    ModUnique(u, 256, u / 256, u % 256);
    assert x == 256 * (16777216 * (x / TWO32) + u / 256) + u % 256;
    ModUnique(x, 256, 16777216 * (x / TWO32) + u / 256, u % 256);
  }
}
