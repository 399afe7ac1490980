/**
 The address ring between the driver and the free list of the DPDK backend:
 an array of a power-of-two length with two free-running 32-bit indices. The Go
 side and the C mempool ops work on the same memory, so both are methods of one
 class here, and both are proved against the same bounded first-in first-out
 sequence, `contents`.
 */
module Rings {
  import opened Words

  /** The `n` entries a ring over `s` holds when its consumer index is `head`. */
  function Window(s: seq<u64>, head: nat, n: nat): (w: seq<u64>)
    requires n <= |s|
    ensures |w| == n
  {
    seq(n, i requires 0 <= i < n => s[(head + i) % |s|])
  }

  /** Storing at the producer's slot appends, whatever the indices have wrapped to. */
  lemma {:induction false} WindowPush(s: seq<u64>, head: nat, n: nat, x: u64)
    requires n < |s|
    ensures Window(s[(head + n) % |s| := x], head, n + 1) == Window(s, head, n) + [x]
  {
    var s' := s[(head + n) % |s| := x];
    var w := Window(s', head, n + 1);
    forall i | 0 <= i < n
      ensures w[i] == Window(s, head, n)[i]
    {
      ModDistinct(head + i, head + n, |s|);
    }
    assert w == w[..n] + [w[n]];
    assert w[..n] == Window(s, head, n);
  }

  lemma {:induction false} WindowPop(s: seq<u64>, head: nat, n: nat)
    requires 0 < n <= |s|
    ensures Window(s, head, n) == [s[head % |s|]] + Window(s, head + 1, n - 1)
  {
    forall i | 0 < i < n
      ensures Window(s, head, n)[i] == Window(s, head + 1, n - 1)[i - 1]
    {
      assert head + i == head + 1 + (i - 1);
    }
  }

  /** The window does not see a 32-bit wrap of its head. */
  lemma {:induction false} WindowWrap(s: seq<u64>, head: nat, n: nat)
    requires n <= |s| && IsPow2(|s|) && |s| <= TWO31
    ensures Window(s, Wrap32(head), n) == Window(s, head, n)
  {
    WrapKeepsSlot(head, |s|);
    forall i | 0 <= i < n
      ensures Window(s, Wrap32(head), n)[i] == Window(s, head, n)[i]
    {
      SameModShift(Wrap32(head), head, i, |s|);
    }
  }

  lemma {:induction false} SameModShift(a: nat, b: nat, i: nat, m: nat)
    requires m > 0 && a % m == b % m
    ensures (a + i) % m == (b + i) % m
  {
    assert a == m * (a / m) + a % m && b == m * (b / m) + b % m;
    assert b + i == m * ((b + i) / m) + (b + i) % m;
    var q := (b + i) / m + a / m - b / m;
    assert q * m == m * ((b + i) / m) + m * (a / m) - m * (b / m);
    ModUnique(a + i, m, q, (b + i) % m);
  }

  /** Moving the producer index by one moves the length by one. */
  lemma {:induction false} IndexStep(head: u32, tail: u32)
    ensures Wrap32(tail - head) + 1 < TWO32 ==> Wrap32(Wrap32(tail + 1) - head) == Wrap32(tail - head) + 1
    ensures Wrap32(tail - head) > 0 ==> Wrap32(tail - Wrap32(head + 1)) == Wrap32(tail - head) - 1
  {
  }

  class Ring {
    /** The addresses waiting, oldest first. */
    ghost var contents: seq<u64>

    const buf: array<u64>
    const mask: u32
    var head: u32
    var tail: u32
    var drops: nat
    var empty: nat

    ghost predicate Valid()
      reads this, buf
    {
      && IsPow2(buf.Length)
      && buf.Length <= TWO31
      && mask == buf.Length - 1
      && |contents| == Wrap32(tail - head) <= buf.Length
      && contents == Window(buf[..], head, Wrap32(tail - head))
    }

    function Len(): (n: nat)
      reads this
    {
      Wrap32(tail - head)
    }

    function Cap(): (n: nat)
      reads this
    {
      buf.Length
    }

    function Room(): (n: nat)
      requires Valid()
      reads this, buf
    {
      buf.Length - Len()
    }

    constructor (capacity: nat)
      requires IsPow2(capacity)
      ensures (Valid() <==> capacity <= TWO31) && contents == [] && Cap() == capacity && drops == 0 && empty == 0
      ensures fresh(buf)
    {
      buf := new u64[capacity](_ => 0);
      mask := Wrap32(capacity - 1);
      head, tail, drops, empty := 0, 0, 0, 0;
      contents := [];
    }

    /** One store at the producer index. */
    method Store(x: u64)
      requires Valid() && |contents| < Cap()
      modifies this`tail, this`contents, buf
      ensures Valid() && contents == old(contents) + [x]
    {
      hide Wrap32, Window, IsPow2;
      ghost var s, n := buf[..], Len();
      ProducerSlot(head, tail, buf.Length);
      buf[Within(tail, mask + 1)] := x;
      assert buf[..] == s[(head + n) % |s| := x];
      IndexStep(head, tail);
      tail := Wrap32(tail + 1);
      WindowPush(s, head, n, x);
      contents := contents + [x];
    }

    /** One load at the consumer index. */
    method Load() returns (x: u64)
      requires Valid() && |contents| > 0
      modifies this`head, this`contents
      ensures Valid() && x == old(contents)[0] && contents == old(contents)[1..]
    {
      ghost var n := Len();
      x := buf[Within(head, mask + 1)];
      WindowPop(buf[..], head, n);
      WindowWrap(buf[..], head + 1, n - 1);
      IndexStep(head, tail);
      head := Wrap32(head + 1);
      contents := contents[1..];
    }

    /** Adds the longest prefix that fits. */
    method Push(addrs: seq<u64>) returns (n: nat)
      requires Valid()
      modifies this`tail, this`contents, buf
      ensures Valid()
      ensures n == Min(|addrs|, Cap() - |old(contents)|)
      ensures contents == old(contents) + addrs[..n]
    {
      n := Min(|addrs|, Room());
      for i := 0 to n
        invariant Valid() && contents == old(contents) + addrs[..i]
      {
        Store(addrs[i]);
        assert addrs[..i] + [addrs[i]] == addrs[..i + 1];
      }
    }

    method PushOne(addr: u64) returns (ok: bool)
      requires Valid()
      modifies this`tail, this`contents, buf
      ensures Valid()
      ensures ok == (|old(contents)| < Cap())
      ensures contents == if ok then old(contents) + [addr] else old(contents)
    {
      if Room() == 0 {
        return false;
      }
      Store(addr);
      return true;
    }

    /** Removes up to `n` from the front, oldest first. */
    method Pop(n: int, dst: seq<u64>) returns (out: seq<u64>)
      requires Valid()
      modifies this`head, this`contents
      ensures Valid()
      ensures var k := if n < 0 then 0 else Min(n, |old(contents)|);
              out == dst + old(contents)[..k] && contents == old(contents)[k..]
    {
      out := dst;
      var m := Min(n, Len());
      if m <= 0 {
        return;
      }
      ghost var was := contents;
      for i := 0 to m
        invariant Valid() && out == dst + was[..i] && contents == was[i..]
      {
        var x := Load();
        assert was[..i] + [x] == was[..i + 1];
        out := out + [x];
      }
    }

    /** All `n` from the front, or the ring as it was. */
    method PopBulk(dst: array<u64>, n: nat) returns (ok: bool)
      requires Valid() && n <= dst.Length && dst != buf
      modifies this`head, this`contents, dst
      ensures Valid()
      ensures ok == (n <= |old(contents)|)
      ensures ok ==> dst[..] == old(contents)[..n] + old(dst[n..]) && contents == old(contents)[n..]
      ensures !ok ==> contents == old(contents) && dst[..] == old(dst[..])
    {
      if Len() < n {
        return false;
      }
      ghost var was, pre := contents, dst[..];
      for i := 0 to n
        invariant Valid() && contents == was[i..]
        invariant forall k :: 0 <= k < dst.Length ==> dst[k] == if k < i then was[k] else pre[k]
      {
        var x := Load();
        dst[i] := x;
      }
      return true;
    }

    /** `pio_mp_enqueue`: the driver frees objects into this ring. */
    method MpEnqueue(obj: seq<u64>) returns (ok: bool)
      requires Valid()
      modifies this`tail, this`contents, this`drops, buf
      ensures Valid()
      ensures var k := Min(|obj|, Cap() - |old(contents)|);
              ok == (k == |obj|) && contents == old(contents) + obj[..k] && drops == old(drops) + |obj| - k
    {
      for i := 0 to |obj|
        invariant Valid() && drops == old(drops)
        invariant contents == old(contents) + obj[..i]
      {
        if Wrap32(tail - head) > mask {
          drops := drops + (|obj| - i);
          return false;
        }
        Store(obj[i]);
        assert obj[..i] + [obj[i]] == obj[..i + 1];
      }
      return true;
    }

    /** `pio_mp_dequeue`: the driver draws a bulk from this ring. */
    method MpDequeue(n: nat) returns (ok: bool, obj: seq<u64>)
      requires Valid()
      modifies this`head, this`contents, this`empty
      ensures Valid()
      ensures ok == (n <= |old(contents)|)
      ensures ok ==> obj == old(contents)[..n] && contents == old(contents)[n..] && empty == old(empty)
      ensures !ok ==> obj == [] && contents == old(contents) && empty == old(empty) + 1
    {
      obj := [];
      if Wrap32(tail - head) < n {
        empty := empty + 1;
        return false, obj;
      }
      ghost var was := contents;
      for i := 0 to n
        invariant Valid() && empty == old(empty) && obj == was[..i] && contents == was[i..]
      {
        var x := Load();
        assert was[..i] + [x] == was[..i + 1];
        obj := obj + [x];
      }
      return true, obj;
    }
  }

  /** The producer's masked index is the slot just past the window. */
  lemma {:induction false} ProducerSlot(head: u32, tail: u32, cap: nat)
    requires IsPow2(cap) && cap <= TWO31
    ensures tail % cap == (head + Wrap32(tail - head)) % cap
  {
    hide Wrap32, IsPow2;
    WrapBack(head, tail);
    WrapKeepsSlot(head + Wrap32(tail - head), cap);
  }

  lemma {:induction false} WrapBack(head: u32, tail: u32)
    ensures Wrap32(head + Wrap32(tail - head)) == tail
  {
  }

  /** What the indices of a ring say it holds after `n` more pushes than pops, the first from `head`. */
  function Shown(head: u32, n: nat): nat { Wrap32(Wrap32(head + n) - head) }

  lemma {:induction false} ShownIff(head: u32, n: nat)
    ensures Shown(head, n) == n <==> n < TWO32
  {
    var k := n / 0x1_0000_0000;
    var r := n % 0x1_0000_0000;
    assert n == k * 0x1_0000_0000 + r;
    if head + r < TWO32 {
      ModUnique(head + n, TWO32, k, head + r);
    } else {
      ModUnique(head + n, TWO32, k + 1, head + r - TWO32);
    }
  }

  /** They are right for every number of entries the ring takes exactly when it takes fewer than 2^32. */
  lemma {:induction false} LenRightIff(cap: nat)
    ensures (forall head: u32, n: nat :: n <= cap ==> Shown(head, n) == n) <==> cap < TWO32
  {
    forall head: u32, n: nat
      ensures Shown(head, n) == n <==> n < TWO32
    {
      ShownIff(head, n);
    }
    assert Shown(0, TWO32) != TWO32;
  }

  /**
   A ring over fresh memory, or nothing when the capacity is not a power of two. One of
   more than 2^31 entries is made too, but its indices cannot tell full from empty.
   */
  method NewRing(capacity: int) returns (r: Ring?)
    ensures r != null <==> IsPow2(capacity)
    ensures r != null ==> fresh(r) && r.contents == [] && r.Cap() == capacity && (r.Valid() <==> capacity <= TWO31)
  {
    if capacity <= 0 {
      assert !IsPow2(capacity) by {
        forall k: nat ensures capacity != Pow2(k) { assert Pow2(k) >= 1; }
      }
      return null;
    }
    PowerOfTwoTest(capacity);
    if BitAnd(capacity, capacity - 1) != 0 {
      return null;
    }
    r := new Ring(capacity);
  }
}
