/**
 Fixed-width unsigned integers, and the bit operations the sources use on them.

 Integers in the model are unbounded, so every wrap-around of the original is
 written out with `Wrap32`, and every mask is the digit-wise `BitAnd` or
 `AndNot`, whose arithmetic meaning on a power-of-two mask is proved here once.
 */
module Words {

  const TWO16: int := 0x1_0000
  const TWO31: int := 0x8000_0000
  const TWO32: int := 0x1_0000_0000
  const TWO64: int := 0x1_0000_0000_0000_0000

  type u8 = x: int | 0 <= x < 0x100
  type u16 = x: int | 0 <= x < 0x1_0000
  type u32 = x: int | 0 <= x < 0x1_0000_0000
  type u64 = x: int | 0 <= x < 0x1_0000_0000_0000_0000

  function Min(a: int, b: int): (r: int)
    ensures r <= a && r <= b && (r == a || r == b)
  {
    if a < b then a else b
  }

  /** Reduction to 32 bits, as unsigned addition and subtraction do it. */
  function Wrap32(x: int): u32 {
    if 0 <= x < 0x1_0000_0000 then x else x % 0x1_0000_0000
  }

  /** `k` times `m`, by addition. */
  function Times(k: nat, m: nat): nat {
    if k == 0 then 0 else Times(k - 1, m) + m
  }

  lemma {:induction false} TimesIs(k: nat, m: nat)
    ensures Times(k, m) == k * m
  {
    if k > 0 {
      TimesIs(k - 1, m);
      assert k * m == (k - 1) * m + m;
    }
  }

  function Pow2(k: nat): (r: nat)
    ensures r >= 1
  {
    if k == 0 then 1 else 2 * Pow2(k - 1)
  }

  ghost predicate IsPow2(n: int) {
    exists k: nat :: n == Pow2(k)
  }

  /** `a & b`, one binary digit at a time. */
  function BitAnd(a: nat, b: nat): nat {
    if a == 0 || b == 0 then 0
    else (a % 2) * (b % 2) + 2 * BitAnd(a / 2, b / 2)
  }

  /** `a &^ b`: the digits of `a` where `b` has none. */
  function AndNot(a: nat, b: nat): nat {
    if a == 0 then 0
    else (if a % 2 == 1 && b % 2 == 0 then 1 else 0) + 2 * AndNot(a / 2, b / 2)
  }

  lemma {:induction false} DoubleMod(x: nat, m: nat)
    requires m >= 1
    ensures x % (2 * m) == x % 2 + 2 * ((x / 2) % m)
  {
    var q := (x / 2) / m;
    assert x == 2 * (q * m + (x / 2) % m) + x % 2;
    var r := x % 2 + 2 * ((x / 2) % m);
    assert x == q * (2 * m) + r && 0 <= r < 2 * m;
    ModUnique(x, 2 * m, q, r);
  }

  lemma {:induction false} MulMono(a: nat, b: nat, m: nat)
    requires a <= b
    ensures a * m <= b * m
  {
  }

  lemma {:induction false} MulAtLeast(d: int, m: int)
    requires m > 0
    ensures d >= 1 ==> d * m >= m
    ensures d <= -1 ==> d * m <= -m
  {
    if d >= 1 {
      assert (d - 1) * m >= 0;
    } else if d <= -1 {
      assert (-1 - d) * m >= 0;
    }
  }

  lemma {:induction false} ModUnique(x: int, m: int, q: int, r: int)
    requires 0 <= r < m && x == q * m + r
    ensures x % m == r && x / m == q
  {
    var q', r' := x / m, x % m;
    assert x == m * q' + r';
    var d := q' - q;
    assert d * m == q' * m - q * m;
    MulAtLeast(d, m);
  }

  lemma {:induction false} MaskIsMod(x: nat, k: nat)
    ensures BitAnd(x, Pow2(k) - 1) == x % Pow2(k)
  {
    if k > 0 {
      var m := Pow2(k - 1);
      MaskIsMod(x / 2, k - 1);
      DoubleMod(x, m);
      assert (2 * m - 1) % 2 == 1 && (2 * m - 1) / 2 == m - 1;
      if x == 0 {
        assert 0 % (2 * m) == 0;
      }
    }
  }

  lemma {:induction false} AndNotClearsMask(x: nat, k: nat)
    ensures AndNot(x, Pow2(k) - 1) == x - x % Pow2(k)
  {
    hide AndNot;
    if k == 0 {
      AndNotZero(x);
    } else {
      var m := Pow2(k - 1);
      AndNotClearsMask(x / 2, k - 1);
      DoubleMod(x, m);
      AndNotOdd(x, m);
    }
  }

  lemma {:induction false} AndNotOdd(x: nat, m: nat)
    requires m > 0
    ensures AndNot(x, 2 * m - 1) == 2 * AndNot(x / 2, m - 1)
  {
    assert (2 * m - 1) % 2 == 1 && (2 * m - 1) / 2 == m - 1;
  }

  lemma {:induction false} AndNotZero(x: nat)
    ensures AndNot(x, 0) == x
  {
    if x > 0 {
      AndNotZero(x / 2);
    }
  }

  /** The offset of an address inside its power-of-two frame: one mask. */
  function Within(addr: nat, size: nat): (r: nat)
    requires IsPow2(size)
    ensures r == addr % size
  {
    assert BitAnd(addr, size - 1) == addr % size by {
      var k: nat :| size == Pow2(k);
      MaskIsMod(addr, k);
    }
    BitAnd(addr, size - 1)
  }

  lemma {:induction false} RoundDown(x: nat, m: nat)
    requires m > 0
    ensures x - x % m >= 0 && (x - x % m) % m == 0 && x < x - x % m + m
  {
    var q := x / m;
    assert x == m * q + x % m;
    assert m * q == q * m;
    ModUnique(x - x % m, m, q, 0);
  }

  /** The start of the power-of-two frame an address is in: one mask. */
  function FrameStart(addr: nat, size: nat): (r: nat)
    requires IsPow2(size)
    ensures r == addr - addr % size
    ensures r % size == 0 && r <= addr < r + size
  {
    assert AndNot(addr, size - 1) == addr - addr % size by {
      var k: nat :| size == Pow2(k);
      AndNotClearsMask(addr, k);
    }
    RoundDown(addr, size);
    AndNot(addr, size - 1)
  }

  /** A frame start at or below an address, less than a frame away, is that address's frame. */
  lemma {:induction false} FrameUnique(addr: nat, f: nat, m: nat)
    requires IsPow2(m) && f % m == 0 && f <= addr < f + m
    ensures FrameStart(addr, m) == f && addr % m == addr - f
  {
    assert f == m * (f / m);
    assert f / m * m == m * (f / m);
    ModUnique(addr, m, f / m, addr - f);
  }

  lemma {:induction false} Pow2Add(j: nat, k: nat)
    ensures Pow2(j + k) == Pow2(j) * Pow2(k)
  {
    if j > 0 {
      Pow2Add(j - 1, k);
      assert 2 * (Pow2(j - 1) * Pow2(k)) == (2 * Pow2(j - 1)) * Pow2(k);
    }
  }

  lemma {:induction false} Pow2Mono(j: nat, k: nat)
    requires j <= k
    ensures Pow2(j) <= Pow2(k)
  {
    if j < k {
      Pow2Mono(j, k - 1);
    }
  }

  lemma {:induction false} Pow2At32()
    ensures Pow2(32) == TWO32
  {
    assert Pow2(8) == 0x100;
    Pow2Add(8, 8);
    Pow2Add(16, 16);
  }

  /** A power of two up to 2^31 divides 2^32. */
  lemma {:induction false} DividesTwo32(cap: nat) returns (q: nat)
    requires IsPow2(cap) && cap <= TWO31
    ensures q * cap == TWO32 && q >= 2
  {
    var k: nat :| cap == Pow2(k);
    Pow2At32();
    if k > 31 {
      Pow2Mono(32, k);
    }
    Pow2Add(32 - k, k);
    Pow2Mono(1, 32 - k);
    q := Pow2(32 - k);
  }

  /** Wrapping an index to 32 bits does not move its slot in a power-of-two ring. */
  lemma {:induction false} WrapKeepsSlot(x: int, cap: nat)
    requires IsPow2(cap) && cap <= TWO31
    ensures Wrap32(x) % cap == x % cap
  {
    var q := DividesTwo32(cap);
    var k := x / 0x1_0000_0000;
    var y := Wrap32(x);
    assert x == k * 0x1_0000_0000 + y;
    var a, r := y / cap, y % cap;
    assert y == a * cap + r;
    assert k * (q * cap) == (k * q) * cap;
    assert x == (k * q + a) * cap + r by {
      assert (k * q + a) * cap == (k * q) * cap + a * cap;
    }
    ModUnique(x, cap, k * q + a, r);
  }

  /** Two indices less than a whole ring apart are in different slots. */
  lemma {:induction false} ModDistinct(a: int, b: int, m: int)
    requires a < b < a + m
    ensures a % m != b % m
  {
    assert a == m * (a / m) + a % m;
    assert b == m * (b / m) + b % m;
    var d := b / m - a / m;
    assert d * m == m * (b / m) - m * (a / m);
    MulAtLeast(d, m);
  }

  /** `a | b`, one binary digit at a time. */
  function BitOr(a: nat, b: nat): nat {
    if a == 0 then b
    else if b == 0 then a
    else (if a % 2 + b % 2 > 0 then 1 else 0) + 2 * BitOr(a / 2, b / 2)
  }

  /** Whether digit `k` of `w` is one. */
  predicate Bit(w: nat, k: nat) {
    if k == 0 then w % 2 == 1 else Bit(w / 2, k - 1)
  }

  lemma {:induction false} NoBits(k: nat)
    ensures !Bit(0, k)
  {
    if k > 0 {
      NoBits(k - 1);
    }
  }

  lemma {:induction false} TestBit(w: nat, k: nat)
    ensures BitAnd(w, Pow2(k)) != 0 <==> Bit(w, k)
  {
    if w == 0 {
      NoBits(k);
    } else if k == 0 {
      assert BitAnd(w / 2, 0) == 0;
    } else {
      TestBit(w / 2, k - 1);
    }
  }

  lemma {:induction false} SetBit(w: nat, b: nat, c: nat)
    ensures Bit(BitOr(w, Pow2(b)), c) <==> c == b || Bit(w, c)
  {
    var o := BitOr(w, Pow2(b));
    if w == 0 {
      NoBits(c);
      OneBit(b, c);
    } else if b == 0 {
      assert o == 1 + 2 * BitOr(w / 2, 0);
      assert BitOr(w / 2, 0) == w / 2;
    } else {
      assert o == w % 2 + 2 * BitOr(w / 2, Pow2(b - 1));
      if c > 0 {
        SetBit(w / 2, b - 1, c - 1);
      }
    }
  }

  lemma {:induction false} OneBit(b: nat, c: nat)
    ensures Bit(Pow2(b), c) <==> c == b
  {
    if c > 0 && b > 0 {
      OneBit(b - 1, c - 1);
    } else if c > 0 {
      NoBits(c - 1);
    }
  }

  lemma {:induction false} ClearBit(w: nat, b: nat, c: nat)
    ensures Bit(AndNot(w, Pow2(b)), c) <==> c != b && Bit(w, c)
  {
    var o := AndNot(w, Pow2(b));
    if w == 0 {
      NoBits(c);
    } else if b == 0 {
      assert o == 2 * AndNot(w / 2, 0);
      AndNotZero(w / 2);
    } else {
      assert o == w % 2 + 2 * AndNot(w / 2, Pow2(b - 1));
      if c > 0 {
        ClearBit(w / 2, b - 1, c - 1);
      }
    }
  }

  lemma {:induction false} LowBits(r: nat, c: nat)
    ensures Bit(Pow2(r) - 1, c) <==> c < r
  {
    if r == 0 {
      NoBits(c);
    } else {
      assert (Pow2(r) - 1) % 2 == 1 && (Pow2(r) - 1) / 2 == Pow2(r - 1) - 1;
      if c > 0 {
        LowBits(r - 1, c - 1);
      }
    }
  }

  /** The test `n & (n-1) == 0` is the test for a power of two. */
  lemma {:induction false} PowerOfTwoTest(n: nat)
    requires n >= 1
    ensures BitAnd(n, n - 1) == 0 <==> IsPow2(n)
  {
    if n == 1 {
      assert Pow2(0) == 1;
    } else if n % 2 == 1 {
      SelfAnd(n / 2);
      assert (n - 1) / 2 == n / 2;
      assert !IsPow2(n) by {
        forall k: nat ensures n != Pow2(k) { assert k == 0 || Pow2(k) == 2 * Pow2(k - 1); }
      }
    } else {
      PowerOfTwoTest(n / 2);
      assert (n - 1) / 2 == n / 2 - 1;
      if IsPow2(n / 2) {
        var k: nat :| n / 2 == Pow2(k);
        assert n == Pow2(k + 1);
      }
      if IsPow2(n) {
        var k: nat :| n == Pow2(k);
        assert n / 2 == Pow2(k - 1);
      }
    }
  }

  lemma {:induction false} OddSquare(d: nat)
    requires d < 2
    ensures d * d == d
  {
    assert d == 0 || d == 1;
  }

  lemma {:induction false} SelfAnd(a: nat)
    ensures BitAnd(a, a) == a
  {
    if a > 0 {
      SelfAnd(a / 2);
      OddSquare(a % 2);
    }
  }
}
