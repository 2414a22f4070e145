/** Bit operations of the hypervisor's C and assembly code, on natural numbers.

`And` and `Or` work bit by bit; shifts are multiplication and division by
powers of two. The lemmas turn the uses the code makes of them into arithmetic. */
module Bits {

  const WORD := 0x1_0000_0000_0000_0000 // 2^64
  const WORD32 := 0x1_0000_0000 // 2^32

  type Word = x: int | 0 <= x < WORD
  type Word32 = x: int | 0 <= x < WORD32

  /** 64-bit wrap-around. */
  function Wrap(x: int): Word {
    if 0 <= x < WORD then x else x % WORD
  }

  function Pow2(n: nat): (r: nat)
    ensures r > 0
  {
    if n == 0 then 1 else 2 * Pow2(n - 1)
  }

  lemma Pow2Zero()
    ensures Pow2(0) == 1
  {
  }

  /** A sum that does not wrap. */
  lemma PlainSum(x: nat)
    ensures x < WORD ==> Wrap(x) == x
  {
  }

  lemma Pow2Values()
    ensures Pow2(9) == 512 && Pow2(10) == 1024 && Pow2(11) == 2048 && Pow2(12) == 4096
    ensures Pow2(21) == 0x20_0000 && Pow2(30) == 0x4000_0000 && Pow2(31) == 0x8000_0000
    ensures Pow2(32) == WORD32 && Pow2(37) == 0x20_0000_0000 && Pow2(64) == WORD
  {
    assert Pow2(10) == 1024;
    assert Pow2(20) == 0x10_0000;
    assert Pow2(30) == 0x4000_0000;
    assert Pow2(40) == 0x100_0000_0000;
    assert Pow2(50) == 0x4_0000_0000_0000;
    assert Pow2(60) == 0x1000_0000_0000_0000;
  }

  lemma Pow2Next(i: nat)
    ensures Pow2(i + 1) == 2 * Pow2(i)
  {
  }

  lemma {:induction false} Pow2Monotone(a: nat, b: nat)
    requires a <= b
    ensures Pow2(a) <= Pow2(b) && (a < b ==> Pow2(a) < Pow2(b))
    decreases b
  {
    if a < b {
      Pow2Monotone(a, b - 1);
    }
  }

  lemma {:induction false} Pow2Sum(a: nat, b: nat)
    ensures Pow2(a + b) == Pow2(a) * Pow2(b) && Pow2(0) == 1
    decreases b
  {
    if b == 0 {
      TimesOne(Pow2(a));
    } else {
      Pow2Sum(a, b - 1);
      DoubleProduct(Pow2(a), Pow2(b - 1));
    }
  }

  lemma TimesOne(x: int)
    ensures x * 1 == x
  {
  }

  lemma DoubleProduct(x: int, y: int)
    ensures x * (2 * y) == 2 * (x * y)
  {
  }

  /** Bit `i` of `x`, bit 0 being the least significant one. */
  predicate Bit(x: nat, i: nat)
    decreases i
  {
    if i == 0 then x % 2 == 1 else Bit(x / 2, i - 1)
  }

  function And(x: nat, y: nat): nat
    decreases x
  {
    if x == 0 then 0
    else (if x % 2 == 1 && y % 2 == 1 then 1 else 0) + 2 * And(x / 2, y / 2)
  }

  function Or(x: nat, y: nat): nat
    decreases x
  {
    if x == 0 then y
    else (if x % 2 == 1 || y % 2 == 1 then 1 else 0) + 2 * Or(x / 2, y / 2)
  }

  lemma {:induction false} AndBit(x: nat, y: nat, i: nat)
    ensures Bit(And(x, y), i) <==> Bit(x, i) && Bit(y, i)
    decreases i
  {
    if x == 0 {
      ZeroBit(i);
    } else if i > 0 {
      assert And(x, y) / 2 == And(x / 2, y / 2);
      AndBit(x / 2, y / 2, i - 1);
    }
  }

  lemma {:induction false} OrBit(x: nat, y: nat, i: nat)
    ensures Bit(Or(x, y), i) <==> Bit(x, i) || Bit(y, i)
    decreases i
  {
    if x == 0 {
      ZeroBit(i);
    } else if i > 0 {
      assert Or(x, y) / 2 == Or(x / 2, y / 2);
      OrBit(x / 2, y / 2, i - 1);
    }
  }

  lemma {:induction false} ZeroBit(i: nat)
    ensures !Bit(0, i)
  {
    if i > 0 {
      ZeroBit(i - 1);
    }
  }

  /** Two numbers below 2^n with the same first n bits are equal. */
  lemma {:induction false} BitExtensionality(x: nat, y: nat, n: nat)
    requires x < Pow2(n) && y < Pow2(n)
    requires forall i: nat :: i < n ==> (Bit(x, i) <==> Bit(y, i))
    ensures x == y
  {
    if n > 0 {
      assert Bit(x, 0) <==> Bit(y, 0);
      forall i: nat | i < n - 1
        ensures Bit(x / 2, i) <==> Bit(y / 2, i)
      {
        assert Bit(x, i + 1) <==> Bit(y, i + 1);
      }
      BitExtensionality(x / 2, y / 2, n - 1);
    }
  }

  /** Masking with k ones takes the remainder modulo 2^k. */
  lemma {:induction false} AndMask(x: nat, k: nat)
    ensures And(x, Pow2(k) - 1) == x % Pow2(k)
    decreases k
  {
    if k == 0 {
      AndZero(x);
    } else {
      var m := Pow2(k - 1);
      assert Pow2(k) == 2 * m;
      AndMask(x / 2, k - 1);
      hide Pow2, And;
      AndStep(x, m);
      ModDouble(x, m);
    }
  }

  lemma AndStep(x: nat, m: nat)
    requires m > 0
    ensures And(x, 2 * m - 1) == x % 2 + 2 * And(x / 2, m - 1)
  {
    ModUnique(2 * m - 1, 2, m - 1, 1);
  }

  lemma {:induction false} AndZero(x: nat)
    ensures And(x, 0) == 0
    decreases x
  {
    if x > 0 {
      AndZero(x / 2);
    }
  }

  lemma ModDouble(x: nat, m: nat)
    requires m > 0
    ensures x % (2 * m) == x % 2 + 2 * ((x / 2) % m)
  {
    var q, r := (x / 2) / m, (x / 2) % m;
    assert x / 2 == q * m + r;
    assert x == (2 * m) * q + (x % 2 + 2 * r);
    ModUnique(x, 2 * m, q, x % 2 + 2 * r);
  }

  lemma MulAtLeast(d: int, k: int)
    requires d >= 0
    ensures k >= 1 ==> d * k >= d
    ensures k <= -1 ==> d * k <= -d
    ensures k == 0 ==> d * k == 0
  {
    if k >= 1 {
      assert d * k == d + d * (k - 1);
    } else if k <= -1 {
      assert d * k == -d + d * (k + 1);
    }
  }

  lemma ModUnique(x: int, d: int, q: int, r: int)
    requires 0 <= r < d && x == d * q + r
    ensures x / d == q && x % d == r
  {
    var e := x / d;
    var f := x % d;
    assert x == d * e + f && 0 <= f < d;
    assert d * (e - q) == r - f by {
      assert d * (e - q) == d * e - d * q;
    }
    MulAtLeast(d, e - q);
  }

  /** Or of numbers whose bits cannot meet is their sum. */
  lemma {:induction false} OrDisjoint(x: nat, y: nat, k: nat)
    requires y < Pow2(k)
    ensures Or(x * Pow2(k), y) == x * Pow2(k) + y
    ensures Or(y, x * Pow2(k)) == x * Pow2(k) + y
    decreases k
  {
    if k == 0 {
      OrZero(x);
    } else {
      var h := x * Pow2(k - 1);
      assert x * Pow2(k) == 2 * h by {
        assert x * Pow2(k) == x * (2 * Pow2(k - 1)) == 2 * (x * Pow2(k - 1));
      }
      OrDisjoint(x, y / 2, k - 1);
      if y == 0 {
        OrZero(2 * h);
      }
    }
  }

  /** Or with a number in two parts, against one with a zero low part. */
  lemma {:induction false} OrParts(x: nat, h: nat, l: nat, k: nat)
    requires l < Pow2(k)
    ensures Or(x * Pow2(k), h * Pow2(k) + l) == Or(x, h) * Pow2(k) + l
    decreases k
  {
    if k == 0 {
      TimesOne(x);
      TimesOne(h);
      TimesOne(Or(x, h));
    } else {
      var p := Pow2(k - 1);
      DoubleProduct(x, p);
      DoubleProduct(h, p);
      DoubleProduct(Or(x, h), p);
      OrParts(x, h, l / 2, k - 1);
      OrDouble(x * p, h * p + l / 2, l % 2);
    }
  }

  lemma OrDouble(x: nat, y: nat, b: nat)
    requires b <= 1
    ensures Or(2 * x, 2 * y + b) == 2 * Or(x, y) + b
  {
    ModUnique(2 * x, 2, x, 0);
    ModUnique(2 * y + b, 2, y, b);
  }

  lemma {:induction false} OrZero(x: nat)
    ensures Or(x, 0) == x
    decreases x
  {
    if x > 0 {
      OrZero(x / 2);
    }
  }

  /** `x & 1` tests the parity. */
  lemma AndOne(x: nat)
    ensures And(x, 1) == x % 2
  {
    AndMask(x, 1);
    assert Pow2(1) == 2;
  }

  /** `(val >> offset) & mask`, where the loop has built `mask` one bit at a time. */
  function Field(val: nat, offset: nat, bits: nat): (r: nat)
  {
    (val / Pow2(offset)) % Pow2(bits)
  }

  /** get_value: an out-of-range request yields -1, that is 2^64 - 1. */
  method GetValue(val: Word, offset: int, bits: int) returns (r: Word)
    ensures 0 <= offset <= 63 && 0 <= bits <= 63 ==> r == Field(val, offset, bits)
    ensures !(0 <= offset <= 63 && 0 <= bits <= 63) ==> r == WORD - 1
  {
    if offset < 0 || 63 < offset {
      return WORD - 1;
    }
    if bits < 0 || 63 < bits {
      return WORD - 1;
    }
    var mask := Ones(bits);
    var shifted := val / Pow2(offset);
    DivBound(val, Pow2(offset));
    AndMask(shifted, bits);
    ModBound(shifted, Pow2(bits));
    r := And(shifted, mask);
  }

  /** The mask loop of get_value. */
  method Ones(bits: nat) returns (mask: nat)
    ensures mask == Pow2(bits) - 1
  {
    mask := 0;
    var i := 0;
    while i < bits
      invariant 0 <= i <= bits
      invariant mask == Pow2(i) - 1
    {
      OrOdd(mask, 0);
      mask := Or(mask * 2, 1);
      i := i + 1;
    }
  }

  /** Setting bit 0. */
  lemma OrOdd(h: nat, b: nat)
    requires b <= 1
    ensures Or(2 * h + b, 1) == 2 * h + 1
  {
    OrZero(h);
  }

  lemma DivBound(x: nat, d: nat)
    requires d > 0
    ensures 0 <= x / d <= x
  {
    var q := x / d;
    assert x == d * q + x % d;
    assert d * q == q + (d - 1) * q;
    MulNonNegative(d - 1, q);
  }

  lemma MulNonNegative(a: nat, b: nat)
    ensures a * b >= 0
  {
  }

  lemma ModBound(x: nat, d: nat)
    requires d > 0
    ensures 0 <= x % d <= x && x % d < d
  {
    if x < d {
      ModUnique(x, d, 0, x);
    }
  }

  // ---- single bits ----

  lemma {:induction false} Pow2Bit(b: nat, i: nat)
    ensures Bit(Pow2(b), i) <==> i == b
    decreases i
  {
    if i == 0 {
      if b > 0 {
        ModUnique(Pow2(b), 2, Pow2(b - 1), 0);
      }
    } else if b == 0 {
      ZeroBit(i - 1);
    } else {
      ModUnique(Pow2(b), 2, Pow2(b - 1), 0);
      Pow2Bit(b - 1, i - 1);
    }
  }

  /** The complement within n bits. */
  lemma {:induction false} NotBit(x: nat, n: nat, i: nat)
    requires x < Pow2(n)
    ensures Bit(Pow2(n) - 1 - x, i) <==> i < n && !Bit(x, i)
    decreases n
  {
    if n == 0 {
      ZeroBit(i);
    } else {
      var h, b := x / 2, x % 2;
      var y := Pow2(n - 1) - 1 - h;
      assert Pow2(n) - 1 - x == 2 * y + (1 - b);
      ModUnique(Pow2(n) - 1 - x, 2, y, 1 - b);
      if i > 0 {
        NotBit(h, n - 1, i - 1);
      }
    }
  }

  lemma {:induction false} HighBit(x: nat, n: nat, i: nat)
    requires x < Pow2(n) && n <= i
    ensures !Bit(x, i)
    decreases n
  {
    if n == 0 {
      ZeroBit(i);
    } else {
      HighBit(x / 2, n - 1, i - 1);
    }
  }

  lemma {:induction false} OrBound(x: nat, y: nat, n: nat)
    requires x < Pow2(n) && y < Pow2(n)
    ensures Or(x, y) < Pow2(n)
    decreases n
  {
    if n > 0 {
      OrBound(x / 2, y / 2, n - 1);
    }
  }

  lemma {:induction false} AndBound(x: nat, y: nat)
    ensures And(x, y) <= x
    decreases x
  {
    if x > 0 {
      AndBound(x / 2, y / 2);
    }
  }

  /** A right shift moves the bits down. */
  lemma {:induction false} BitShift(x: nat, k: nat, i: nat)
    ensures x / Pow2(k) >= 0 && (Bit(x / Pow2(k), i) <==> Bit(x, i + k))
    decreases k
  {
    if k == 0 {
      Pow2Zero();
    } else {
      BitShift(x / 2, k - 1, i);
      DivTwice(x, Pow2(k - 1));
    }
  }

  lemma DivTwice(x: nat, d: nat)
    requires d > 0
    ensures x / (2 * d) == (x / 2) / d == (x / d) / 2
  {
    var h := x / 2;
    var q, r := h / d, h % d;
    assert h == d * q + r;
    assert x == (2 * d) * q + (2 * r + x % 2);
    ModUnique(x, 2 * d, q, 2 * r + x % 2);
    var e, f := x / d, x % d;
    assert x == d * e + f;
    var g, b := e / 2, e % 2;
    assert d * e == (2 * d) * g + d * b;
    ModUnique(x, 2 * d, g, d * b + f);
  }

  /** A remainder keeps the low bits. */
  lemma BitMod(x: nat, n: nat, i: nat)
    ensures x % Pow2(n) >= 0 && (Bit(x % Pow2(n), i) <==> i < n && Bit(x, i))
  {
    AndMask(x, n);
    AndBit(x, Pow2(n) - 1, i);
    NotBit(0, n, i);
    ZeroBit(i);
  }

  /** A number is zero exactly when all its bits are. */
  lemma {:induction false} NonZeroBit(x: nat) returns (i: nat)
    requires x > 0
    ensures Bit(x, i)
    decreases x
  {
    if x % 2 == 1 {
      i := 0;
    } else {
      i := NonZeroBit(x / 2);
      i := i + 1;
    }
  }

  /** `x & (1 << b)` tests bit b. */
  lemma AndPow2(x: nat, b: nat)
    ensures And(x, Pow2(b)) != 0 <==> Bit(x, b)
  {
    AndBit(x, Pow2(b), b);
    Pow2Bit(b, b);
    if And(x, Pow2(b)) != 0 {
      var i := NonZeroBit(And(x, Pow2(b)));
      AndBit(x, Pow2(b), i);
      Pow2Bit(b, i);
    } else {
      ZeroBit(b);
    }
  }

  /** The number whose bits 0 .. |bs| - 1 are `bs`. */
  function Pack(bs: seq<bool>): nat {
    if bs == [] then 0 else (if bs[0] then 1 else 0) + 2 * Pack(bs[1..])
  }

  lemma {:induction false} PackBits(bs: seq<bool>)
    ensures Pack(bs) < Pow2(|bs|)
    ensures forall i: nat :: Bit(Pack(bs), i) <==> i < |bs| && bs[i]
  {
    if bs == [] {
      forall i: nat
        ensures !Bit(0, i)
      {
        ZeroBit(i);
      }
    } else {
      PackBits(bs[1..]);
      var b := if bs[0] then 1 else 0;
      ModUnique(Pack(bs), 2, Pack(bs[1..]), b);
      forall i: nat
        ensures Bit(Pack(bs), i) <==> i < |bs| && bs[i]
      {
        if i > 0 {
          assert Bit(Pack(bs[1..]), i - 1) <==> i - 1 < |bs[1..]| && bs[1..][i - 1];
        }
      }
    }
  }
}
