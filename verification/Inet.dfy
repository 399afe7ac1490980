/** IPv4 and TCP headers as bytes, and the checks the receive path makes of them. */
module Inet {
  import opened Words
  import opened Bytes
  import opened Checksum

  const IP_MIN: nat := 20
  const TCP_MIN: nat := 20
  const UDP_MIN: nat := 8
  const TCP: nat := 6
  const UDP: nat := 17

  /** `checksum.Checksum`: the folded sum of `b` on top of an earlier one. */
  function Csum(b: bytes, initial: u16): u16 { Fold(initial + Sum(b)) }

  /** `checksum.Combine`: the sum with its carry brought round. */
  function Combine(a: u16, b: u16): u16 {
    if a + b < 0x10000 then a + b else a + b - 0xffff
  }

  lemma {:induction false} CombineIs(a: u16, b: u16)
    ensures Combine(a, b) == Fold(a + b)
  {
  }

  function Set16(b: bytes, at: nat, v: u16): (r: bytes)
    requires at + 2 <= |b|
    ensures |r| == |b|
  {
    Splice(b, at, ToBE16(v))
  }

  function HeaderLen(ip: bytes): nat
    requires |ip| >= 1
  {
    4 * (ip[0] % 16)
  }

  function DataOffset(tcp: bytes): nat
    requires |tcp| >= TCP_MIN
  {
    4 * (tcp[12] / 16)
  }

  /** The folded sum over the pseudo header of section 3.1 of RFC 9293. */
  function Pseudo(proto: u8, src: bytes, dst: bytes, len: u16): u16 {
    Fold(Sum(src) + Sum(dst) + proto + len)
  }

  predicate IpValid(b: bytes) {
    && |b| >= IP_MIN && IP_MIN <= HeaderLen(b) <= BE16(b, 2) <= |b| && b[0] / 16 == 4
  }

  predicate IpSumValid(b: bytes)
    requires |b| >= 1 && HeaderLen(b) <= |b|
  {
    Csum(b[..HeaderLen(b)], 0) == 0xffff
  }

  /** `TCP.IsChecksumValid` on a segment whose data starts at `off`. */
  predicate TcpSumValid(seg: bytes, off: nat, src: bytes, dst: bytes)
    requires off <= |seg| < TWO16
  {
    Csum(seg[..off], Combine(Pseudo(TCP, src, dst, |seg|), Csum(seg[off..], 0))) == 0xffff
  }

  predicate UdpSumValid(seg: bytes, src: bytes, dst: bytes)
    requires UDP_MIN <= |seg| < TWO16
  {
    Csum(seg[..UDP_MIN], Combine(Pseudo(UDP, src, dst, BE16(seg, 4)), Csum(seg[UDP_MIN..], 0))) == 0xffff
  }

  /** The receive path's verdict on a packet that starts at its IPv4 header and may have padding after it. */
  predicate ChecksumsValid(b: bytes) {
    && IpValid(b) && IpSumValid(b)
    && var total, len := BE16(b, 2), HeaderLen(b);
       if BE16(b, 6) % 0x4000 != 0 then true
       else
         var seg, src, dst := b[len..total], b[12..16], b[16..20];
         if b[9] == UDP then |seg| >= UDP_MIN && (BE16(seg, 6) == 0 || UdpSumValid(seg, src, dst))
         else if b[9] == TCP then
           |seg| >= TCP_MIN && TCP_MIN <= DataOffset(seg) <= |seg| && TcpSumValid(seg, DataOffset(seg), src, dst)
         else true
  }

  /** The pseudo header itself: both addresses, a zero, the protocol, the length. */
  function PseudoBytes(proto: u8, src: bytes, dst: bytes, len: u16): bytes {
    src + dst + [0, proto] + ToBE16(len)
  }

  lemma {:induction false} PseudoSums(proto: u8, src: bytes, dst: bytes, len: u16)
    requires |src| % 2 == 0 && |dst| % 2 == 0
    ensures Sum(PseudoBytes(proto, src, dst, len)) == Sum(src) + Sum(dst) + proto + len
  {
    hide Fold;
    SumSplit(src + dst + [0, proto], ToBE16(len));
    SumSplit(src + dst, [0, proto]);
    SumSplit(src, dst);
    WordSum(0, proto);
    WordSum(len / 256, len % 256);
    assert ToBE16(len) == [len / 256, len % 256];
  }

  lemma {:induction false} WordSum(x: u8, y: u8)
    ensures Sum([x, y]) == 256 * x + y
  {
    assert SumFrom([x, y], 2) == 0;
  }

  /** The receiver's test, in parts, is the sum over pseudo header and segment at once: all ones. */
  lemma {:induction false} TcpSumMeans(seg: bytes, off: nat, src: bytes, dst: bytes)
    requires off <= |seg| < TWO16 && off % 2 == 0 && |src| % 2 == 0 && |dst| % 2 == 0
    ensures TcpSumValid(seg, off, src, dst) <==> Fold(Sum(PseudoBytes(6, src, dst, |seg|) + seg)) == 0xffff
  {
    hide Fold, Sum;
    var p := Sum(src) + Sum(dst) + TCP + |seg|;
    PseudoSums(TCP, src, dst, |seg|);
    SumSplit(PseudoBytes(TCP, src, dst, |seg|), seg);
    assert seg == seg[..off] + seg[off..];
    SumSplit(seg[..off], seg[off..]);
    InParts(p, Sum(seg[..off]), Sum(seg[off..]));
  }

  lemma {:induction false} InParts(p: nat, a: nat, b: nat)
    ensures Fold(Combine(Fold(p), Fold(0 + b)) + a) == Fold(p + (a + b))
  {
    hide Fold;
    CombineIs(Fold(p), Fold(b));
    FoldAdd(p, Fold(b));
    FoldAdd(b, p);
    FoldAdd(Fold(p) + Fold(b), a);
    FoldAdd(p + b, a);
  }

  /** What the receive path's verdict on an unfragmented TCP packet comes to. */
  lemma {:induction false} VerdictMeans(b: bytes)
    requires |b| >= IP_MIN && b[9] == 6 && BE16(b, 6) % 0x4000 == 0
    ensures ChecksumsValid(b) <==>
              && b[0] / 16 == 4 && 20 <= HeaderLen(b) <= BE16(b, 2) <= |b|
              && Fold(Sum(b[..HeaderLen(b)])) == 0xffff
              && var seg := b[HeaderLen(b)..BE16(b, 2)];
                 && |seg| >= 20 && 20 <= DataOffset(seg) <= |seg|
                 && Fold(Sum(PseudoBytes(6, b[12..16], b[16..20], |seg|) + seg)) == 0xffff
  {
    hide Fold, Sum, PseudoBytes, TcpSumValid;
    if IpValid(b) {
      var seg := b[HeaderLen(b)..BE16(b, 2)];
      if |seg| >= TCP_MIN && DataOffset(seg) <= |seg| {
        TcpSumMeans(seg, DataOffset(seg), b[12..16], b[16..20]);
      }
    }
  }

  /** Setting a 16-bit field at an even place adds its value to the sum of the rest. */
  lemma {:induction false} SetAdds(b: bytes, at: nat, v: u16)
    requires at + 2 <= |b| && at % 2 == 0
    ensures Sum(Set16(b, at, v)) == Sum(Set16(b, at, 0)) + v
  {
    var hi, lo, pre, post := ToBE16(v)[0], ToBE16(v)[1], b[..at], b[at + 2..];
    FieldWeight(pre, hi, lo, post);
    assert Set16(b, at, v) == pre + [hi, lo] + post by {
      assert ToBE16(v) == [hi, lo];
    }
    assert Set16(b, at, 0) == pre + [0, 0] + post by {
      assert ToBE16(0) == [0, 0];
    }
  }
}
