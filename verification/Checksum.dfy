/** The Internet checksum of section 1 of RFC 1071: sums of 16-bit words, folded. */
module Checksum {
  import opened Words
  import opened Bytes


  /** The sum of the big-endian words of `b`, an odd last byte padded with zero. */
  function Sum(b: bytes): nat { SumFrom(b, 0) }

  /** The same from byte `i` on. */
  function SumFrom(b: bytes, i: nat): nat
    decreases |b| - i
  {
    if i >= |b| then 0
    else if i + 1 == |b| then 256 * b[i]
    else BE16(b, i) + SumFrom(b, i + 2)
  }

  /**
   The sum folded into 16 bits: every 65536 carried round becomes a one, which is
   to take 65535 away, until what is left fits.
   */
  function Fold(n: nat): u16 {
    if n < 0x10000 then n else Fold(n - 0xffff)
  }

  /** The representative modulo 65535 that is zero only for zero. */
  lemma {:induction false} FoldIs(n: nat)
    ensures Fold(n) == if n == 0 then 0 else n - 0xffff * ((n - 1) / 0xffff)
  {
    if n >= 0x10000 {
      FoldIs(n - 0xffff);
    }
  }

  /** It is what end-around carries come to: carrying changes nothing. */
  lemma {:induction false} CarryKeepsFold(n: nat)
    ensures Fold(n % 0x10000 + n / 0x10000) == Fold(n)
  {
    var q := n / 0x10000;
    SameFold(n % 0x10000 + q, n, q);
  }

  /** Sums a multiple of 65535 apart, neither or both zero, fold alike. */
  lemma {:induction false} SameFold(x: nat, y: nat, q: int)
    requires y == x + 0xffff * q && (x == 0 <==> y == 0)
    ensures Fold(x) == Fold(y)
  {
    FoldIs(x);
    FoldIs(y);
  }

  /** A sum folds to all ones exactly when it is a positive multiple of 65535. */
  lemma {:induction false} AllOnes(n: nat)
    ensures Fold(n) == 0xffff <==> n > 0 && n % 0xffff == 0
  {
    FoldIs(n);
  }

  /** A partial sum may be folded before it is added to. */
  lemma {:induction false} FoldAdd(a: nat, b: nat)
    ensures Fold(Fold(a) + b) == Fold(a + b)
  {
    FoldIs(a);
    if a > 0 {
      SameFold(Fold(a) + b, a + b, (a - 1) / 0xffff);
    }
  }

  lemma {:induction false} AddMultiple(a: int, q: int)
    ensures (a + 0xffff * q) % 0xffff == a % 0xffff
  {
    var k, r := a / 0xffff, a % 0xffff;
    assert a + 0xffff * q == 0xffff * (k + q) + r;
    ModUnique(a + 0xffff * q, 0xffff, k + q, r);
  }

  /** What a sum lacks to all ones. */
  lemma {:induction false} Completes(s: nat)
    ensures (s + (0xffff - Fold(s))) % 0xffff == 0
    ensures s > 0 ==> Fold(s + (0xffff - Fold(s))) == 0xffff
  {
    FoldIs(s);
    var q := if s == 0 then 1 else (s - 1) / 0xffff + 1;
    assert s + (0xffff - Fold(s)) == 0 + 0xffff * q;
    AddMultiple(0, q);
    AllOnes(s + (0xffff - Fold(s)));
  }

  /** Sums of the same bytes are the same, wherever the bytes are. */
  lemma {:induction false} SumShift(a: bytes, b: bytes, i: nat, j: nat)
    requires i <= |a| && j <= |b| && |a| - i == |b| - j
    requires forall k {:trigger a[k]} :: i <= k < |a| ==> a[k] == b[k - i + j]
    ensures SumFrom(a, i) == SumFrom(b, j)
    decreases |a| - i
  {
    if i + 1 < |a| {
      SumShift(a, b, i + 2, j + 2);
    }
  }

  /** Byte by byte: those at even places count 256 times. */
  function Weighed(b: bytes, i: nat): nat
    decreases |b| - i
  {
    if i >= |b| then 0 else (if i % 2 == 0 then 256 * b[i] else b[i]) + Weighed(b, i + 1)
  }

  lemma {:induction false} SumIsWeighed(b: bytes, i: nat)
    requires i % 2 == 0
    ensures SumFrom(b, i) == Weighed(b, i)
    decreases |b| - i
  {
    if i < |b| {
      SumIsWeighed(b, i + 2);
      assert Weighed(b, i) == 256 * b[i] + Weighed(b, i + 1);
    }
  }

  /** A sum splits at any even place. */
  lemma {:induction false} SumSplit(a: bytes, b: bytes)
    requires |a| % 2 == 0
    ensures Sum(a + b) == Sum(a) + Sum(b)
  {
    SplitFrom(a, b, 0);
  }

  lemma {:induction false} SplitFrom(a: bytes, b: bytes, i: nat)
    requires |a| % 2 == 0 && i % 2 == 0 && i <= |a|
    ensures SumFrom(a + b, i) == SumFrom(a, i) + SumFrom(b, 0)
    decreases |a| - i
  {
    if i < |a| {
      SplitFrom(a, b, i + 2);
    } else {
      SumShift(a + b, b, i, 0);
    }
  }

  /** How much a two-byte field adds to the sum around it: swapped, at an odd place. */
  function Weight(at: nat, x: u8, y: u8): nat {
    if at % 2 == 0 then BE16([x, y], 0) else BE16([y, x], 0)
  }

  /** Two strings that differ only in a field that is zero in the first. */
  ghost predicate FieldSet(z: bytes, s: bytes, at: nat, x: u8, y: u8) {
    && |z| == |s| && at + 2 <= |s| && z[at] == 0 && z[at + 1] == 0 && s[at] == x && s[at + 1] == y
    && forall k {:trigger s[k]} {:trigger z[k]} :: 0 <= k < |s| && k != at && k != at + 1 ==> s[k] == z[k]
  }

  lemma {:induction false} FieldAdds(z: bytes, s: bytes, at: nat, x: u8, y: u8, i: nat)
    requires FieldSet(z, s, at, x, y) && i % 2 == 0 && i <= at
    ensures SumFrom(s, i) == SumFrom(z, i) + Weight(at, x, y)
    decreases |s| - i
  {
    if i + 1 < at {
      FieldAdds(z, s, at, x, y, i + 2);
    } else if i == at {
      SumShift(s, z, i + 2, i + 2);
    } else {
      AfterOdd(z, s, at, x, y);
    }
  }

  lemma {:induction false} AfterOdd(z: bytes, s: bytes, at: nat, x: u8, y: u8)
    requires FieldSet(z, s, at, x, y)
    ensures SumFrom(s, at + 1) == SumFrom(z, at + 1) + 256 * y
  {
    if at + 2 < |s| {
      SumShift(s, z, at + 3, at + 3);
    }
  }

  lemma {:induction false} FieldWeight(pre: bytes, x: u8, y: u8, post: bytes)
    ensures Sum(pre + [x, y] + post) == Sum(pre + [0, 0] + post) + Weight(|pre|, x, y)
  {
    FieldAdds(pre + [0, 0] + post, pre + [x, y] + post, |pre|, x, y, 0);
  }

  lemma {:induction false} SumBound(b: bytes, i: nat)
    requires i <= |b|
    ensures SumFrom(b, i) <= 0xffff * ((|b| - i + 1) / 2)
    decreases |b| - i
  {
    if i + 1 < |b| {
      SumBound(b, i + 2);
    }
  }
}
