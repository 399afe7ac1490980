/**
 Byte buffers: overwriting a range, and integers stored in either byte order.
 */
module Bytes {
  import opened Words

  type bytes = seq<u8>

  /** `b` with `s` written over it from `at` on. */
  function Splice(b: bytes, at: nat, s: bytes): (r: bytes)
    requires at + |s| <= |b|
    ensures |r| == |b|
  {
    seq(|b|, i requires 0 <= i < |b| => if at <= i < at + |s| then s[i - at] else b[i])
  }

  lemma {:induction false} SpliceOwn(b: bytes, at: nat, s: bytes)
    requires at + |s| <= |b|
    ensures Splice(b, at, s)[at..at + |s|] == s
  {
  }

  lemma {:induction false} SpliceApart(b: bytes, at: nat, s: bytes, lo: nat, hi: nat)
    requires at + |s| <= |b| && lo <= hi <= |b|
    requires hi <= at || at + |s| <= lo
    ensures Splice(b, at, s)[lo..hi] == b[lo..hi]
  {
  }

  lemma {:induction false} SliceOfSlice(b: bytes, off: nat, n: nat, at: nat, m: nat)
    requires off + n <= |b| && at + m <= n
    ensures b[off..off + n][at..at + m] == b[off + at..off + at + m]
  {
    var l, r := b[off..off + n][at..at + m], b[off + at..off + at + m];
    assert forall k :: 0 <= k < m ==> l[k] == r[k];
  }

  /** Copying `s` into a buffer in place. */
  method Blit(a: array<u8>, at: nat, s: bytes)
    requires at + |s| <= a.Length
    modifies a
    ensures a[..] == Splice(old(a[..]), at, s)
  {
    ghost var was := a[..];
    for i := 0 to |s|
      invariant forall k :: 0 <= k < a.Length ==> a[k] == if at <= k < at + i then s[k - at] else was[k]
    {
      a[at + i] := s[i];
    }
    assert a[..] == Splice(was, at, s);
  }

  function Pow256(n: nat): (r: nat)
    ensures r >= 1
  {
    if n == 0 then 1 else 256 * Pow256(n - 1)
  }

  lemma {:induction false} Pow256Values()
    ensures Pow256(1) == 0x100 && Pow256(2) == TWO16 && Pow256(4) == TWO32 && Pow256(8) == TWO64
  {
    assert Pow256(2) == 256 * Pow256(1);
    assert Pow256(4) == 256 * (256 * Pow256(2));
    assert Pow256(6) == 256 * (256 * Pow256(4));
    assert Pow256(8) == 256 * (256 * Pow256(6));
  }

  function FromLE(s: bytes): (v: nat)
    ensures v < Pow256(|s|)
  {
    if s == [] then 0 else s[0] + 256 * FromLE(s[1..])
  }

  function ToLE(v: nat, n: nat): (s: bytes)
    ensures |s| == n
  {
    if n == 0 then [] else [v % 256] + ToLE(v / 256, n - 1)
  }

  lemma {:induction false} NestedMod(v: nat, p: nat)
    requires p >= 1
    ensures v % (256 * p) == v % 256 + 256 * ((v / 256) % p)
  {
    var q := v / 256;
    var k, r := q / p, q % p;
    assert q == p * k + r;
    assert k * (256 * p) == 256 * (p * k);
    ModUnique(v, 256 * p, k, v % 256 + 256 * r);
  }

  /** A store keeps the low bytes of a value, exactly those that fit. */
  lemma {:induction false} LERoundTrip(v: nat, n: nat)
    ensures FromLE(ToLE(v, n)) == v % Pow256(n)
  {
    if n > 0 {
      LERoundTrip(v / 256, n - 1);
      NestedMod(v, Pow256(n - 1));
      assert ToLE(v, n)[1..] == ToLE(v / 256, n - 1);
    }
  }

  lemma {:induction false} MulAssoc(p: nat, v: nat)
    ensures 256 * (p * v) == (256 * p) * v
  {
  }

  lemma {:induction false} LESplit(a: bytes, b: bytes)
    ensures FromLE(a + b) == FromLE(a) + Pow256(|a|) * FromLE(b)
  {
    if a == [] {
      assert a + b == b;
    } else {
      LESplit(a[1..], b);
      assert (a + b)[1..] == a[1..] + b;
      MulAssoc(Pow256(|a| - 1), FromLE(b));
    }
  }

  /** The 16-bit fields of an eight-byte load are the same bytes loaded alone. */
  lemma {:induction false} WideLoad(s: bytes)
    requires |s| == 8
    ensures FromLE(s) % 0x10000 == FromLE(s[0..2])
    ensures (FromLE(s) / 0x1_0000_0000) % 0x10000 == FromLE(s[4..6])
  {
    var x, y, z, w := FromLE(s[0..2]), FromLE(s[2..4]), FromLE(s[4..6]), FromLE(s[6..8]);
    assert FromLE(s[..4]) == x + 0x1_0000 * y by {
      TwoPlusTwo(s[..4]);
      assert s[..4][0..2] == s[0..2] && s[..4][2..4] == s[2..4];
    }
    assert FromLE(s[4..]) == z + 0x1_0000 * w by {
      TwoPlusTwo(s[4..]);
      assert s[4..][0..2] == s[4..6] && s[4..][2..4] == s[6..8];
    }
    assert FromLE(s) == FromLE(s[..4]) + 0x1_0000_0000 * FromLE(s[4..]) by {
      Pow256Values();
      assert s == s[..4] + s[4..];
      LESplit(s[..4], s[4..]);
    }
    Small(s[0..2]);
    Small(s[2..4]);
    Small(s[4..6]);
    ModUnique(FromLE(s), TWO16, y + 0x1_0000 * (z + 0x1_0000 * w), x);
    ModUnique(FromLE(s), TWO32, z + 0x1_0000 * w, x + 0x1_0000 * y);
    ModUnique(z + 0x1_0000 * w, TWO16, w, z);
  }

  lemma {:induction false} Small(s: bytes)
    requires |s| == 2
    ensures FromLE(s) < TWO16
  {
    Pow256Values();
  }

  lemma {:induction false} TwoPlusTwo(s: bytes)
    requires |s| == 4
    ensures FromLE(s) == FromLE(s[0..2]) + 0x1_0000 * FromLE(s[2..4])
  {
    Pow256Values();
    assert s == s[0..2] + s[2..4];
    LESplit(s[0..2], s[2..4]);
  }

  function BE16(b: bytes, at: nat): (v: u16)
    requires at + 2 <= |b|
  {
    var hi: int, lo: int := b[at], b[at + 1];
    hi * 256 + lo
  }

  function ToBE16(v: u16): (s: bytes)
    ensures |s| == 2 && BE16(s, 0) == v
  {
    [v / 256, v % 256]
  }
}
