/**
 Software segmentation: what the frames of one large TCP packet are, and that
 together they mean what the packet meant.
 */
module Gso {
  import opened Words
  import opened Bytes
  import opened Checksum
  import opened Inet
  import opened Tpacket

  const MIN_FRAME: nat := 60
  const FIN: nat := 1
  const PSH: nat := 8

  lemma {:induction false} SetIndex(b: bytes, at: nat, v: u16, i: nat)
    requires at + 2 <= |b| && i < |b|
    ensures i < at || at + 2 <= i ==> Set16(b, at, v)[i] == b[i]
    ensures i == at ==> Set16(b, at, v)[i] == v / 256
    ensures i == at + 1 ==> Set16(b, at, v)[i] == v % 256
  {
  }

  lemma {:induction false} SetCommutes(b: bytes, p: nat, v: u16, q: nat, w: u16)
    requires p + 2 <= q && q + 2 <= |b|
    ensures Set16(Set16(b, p, v), q, w) == Set16(Set16(b, q, w), p, v)
  {
    var l, r := Set16(Set16(b, p, v), q, w), Set16(Set16(b, q, w), p, v);
    forall i | 0 <= i < |b|
      ensures l[i] == r[i]
    {
      SetIndex(b, p, v, i);
      SetIndex(Set16(b, p, v), q, w, i);
      SetIndex(b, q, w, i);
      SetIndex(Set16(b, q, w), p, v, i);
    }
  }

  // ------------------------------------------------------------ IPv4 header

  /** The header with its length and checksum zero. */
  function Blank(ip: bytes): bytes
    requires |ip| >= IP_MIN
  {
    Set16(Set16(ip, 2, 0), 10, 0)
  }

  /**
   The header with a total length, and the checksum made by adding the length to
   the sum of the rest (section 3 of RFC 1624).
   */
  function IpFrom(ip: bytes, base: u16, total: u16): (r: bytes)
    requires |ip| >= IP_MIN
    ensures |r| == |ip|
  {
    Set16(Set16(ip, 2, total), 10, 0xffff - Combine(base, total))
  }

  function IpWith(ip: bytes, total: u16): (r: bytes)
    requires |ip| >= IP_MIN
    ensures |r| == |ip|
  {
    IpFrom(ip, Csum(Blank(ip), 0), total)
  }

  lemma {:induction false} IpSum(ip: bytes, total: u16, c: u16)
    requires |ip| >= IP_MIN
    ensures Sum(Set16(Set16(ip, 2, total), 10, c)) == Sum(Blank(ip)) + total + c
  {
    SetAdds(Set16(ip, 2, total), 10, c);
    SetCommutes(ip, 2, total, 10, 0);
    SetAdds(Set16(ip, 10, 0), 2, total);
    SetCommutes(ip, 2, 0, 10, 0);
  }

  /** Both in terms of the sums alone. */
  lemma {:induction false} OneAddition(s: nat, total: u16)
    ensures Combine(Fold(s), total) == Fold(s + total)
    ensures total > 0 ==> Fold(s + total + (0xffff - Combine(Fold(s), total))) == 0xffff
  {
    CombineIs(Fold(s), total);
    FoldAdd(s, total);
    Completes(s + total);
  }

  lemma {:induction false} SumsAlike(z: bytes, f: bytes, total: u16)
    requires Sum(f) == Sum(z) + total
    ensures Combine(Csum(z, 0), total) == Csum(f, 0)
  {
    OneAddition(Sum(z), total);
  }

  lemma {:induction false} SumsUp(z: bytes, f: bytes, total: u16)
    requires total > 0 && Sum(f) == Sum(z) + total + (0xffff - Combine(Csum(z, 0), total))
    ensures Csum(f, 0) == 0xffff
  {
    OneAddition(Sum(z), total);
  }

  /** The incremental checksum is the one a full recomputation would store. */
  lemma {:induction false} IncrementalIsFull(ip: bytes, total: u16, blank: bytes, full: bytes)
    requires |ip| >= IP_MIN && blank == Blank(ip) && full == Set16(Set16(ip, 2, total), 10, 0)
    ensures Combine(Csum(blank, 0), total) == Csum(full, 0)
  {
    IpSum(ip, total, 0);
    SumsAlike(blank, full, total);
  }

  lemma {:induction false} IpVerifies(ip: bytes, total: u16)
    requires |ip| >= IP_MIN && total > 0
    ensures Csum(IpWith(ip, total), 0) == 0xffff
  {
    IpSum(ip, total, 0xffff - Combine(Csum(Blank(ip), 0), total));
    SumsUp(Blank(ip), IpWith(ip, total), total);
  }

  // ------------------------------------------------------------- TCP header

  function Seq32(v: u32): (s: bytes)
    ensures |s| == 4
  {
    ToBE16(v / 0x10000) + ToBE16(v % 0x10000)
  }

  /** The header with a sequence number, flags and no checksum. */
  function TcpBlank(tcp: bytes, seq0: u32, flags: u8): (r: bytes)
    requires |tcp| >= TCP_MIN
    ensures |r| == |tcp|
  {
    Set16(Splice(Splice(tcp, 4, Seq32(seq0)), 13, [flags]), 16, 0)
  }

  function TcpWith(tcp: bytes, seq0: u32, flags: u8, src: bytes, dst: bytes, data: bytes): (r: bytes)
    requires |tcp| >= TCP_MIN && |tcp| + |data| < TWO16
    ensures |r| == |tcp|
  {
    var blank := TcpBlank(tcp, seq0, flags);
    Set16(blank, 16, 0xffff - Csum(blank + data, Pseudo(TCP, src, dst, |tcp| + |data|)))
  }

  /** What the receiver adds up, over the whole segment at once. */
  lemma {:induction false} ReceiverSums(hdr: bytes, data: bytes, x: nat)
    requires |hdr| % 2 == 0
    ensures Csum(hdr, Combine(Fold(x), Csum(data, 0))) == Fold(x + Sum(hdr + data))
  {
    SumSplit(hdr, data);
    CombineIs(Fold(x), Csum(data, 0));
    FoldBoth(x, Sum(data));
    FoldAdd(x + Sum(data), Sum(hdr));
  }

  lemma {:induction false} FoldBoth(a: nat, b: nat)
    ensures Fold(Fold(a) + Fold(b)) == Fold(a + b)
  {
    FoldAdd(a, Fold(b));
    FoldAdd(b, a);
  }

  lemma {:induction false} ClosesUp(x: nat, s: nat, c: u16)
    requires c == 0xffff - Fold(Fold(x) + s) && x > 0
    ensures Fold(x + (s + c)) == 0xffff
  {
    FoldAdd(x, s);
    Completes(x + s);
  }

  /** The checksum stored makes the whole segment, pseudo header and all, come to all ones. */
  lemma {:induction false} SegmentSums(blank: bytes, hdr: bytes, data: bytes, x: nat, c: u16)
    requires |blank| % 2 == 0 && |hdr| % 2 == 0 && Sum(hdr) == Sum(blank) + c && x > 0
    requires c == 0xffff - Csum(blank + data, Fold(x))
    ensures Csum(hdr, Combine(Fold(x), Csum(data, 0))) == 0xffff
  {
    SumSplit(blank, data);
    SumSplit(hdr, data);
    ClosesUp(x, Sum(blank) + Sum(data), c);
    ReceiverSums(hdr, data, x);
  }

  lemma {:induction false} SetTwice(b: bytes, at: nat, v: u16, w: u16)
    requires at + 2 <= |b|
    ensures Set16(Set16(b, at, v), at, w) == Set16(b, at, w)
  {
    var l, r := Set16(Set16(b, at, v), at, w), Set16(b, at, w);
    forall i | 0 <= i < |b|
      ensures l[i] == r[i]
    {
      SetIndex(b, at, v, i);
      SetIndex(Set16(b, at, v), at, w, i);
      SetIndex(b, at, w, i);
    }
  }

  /** Storing a checksum in a header that has none adds it to the sum. */
  lemma {:induction false} StoreAdds(b: bytes, at: nat, c: u16)
    requires at + 2 <= |b| && at % 2 == 0
    ensures var blank := Set16(b, at, 0); Sum(Set16(blank, at, c)) == Sum(blank) + c
  {
    SetAdds(b, at, c);
    SetTwice(b, at, 0, c);
  }

  /** What the receiver checks of a header `hdr` made from `blank`. */
  lemma {:induction false} SegmentVerifies(blank: bytes, hdr: bytes, data: bytes, src: bytes, dst: bytes, c: u16)
    requires |hdr| == |blank| && |hdr| % 2 == 0 && |hdr| + |data| < TWO16 && Sum(hdr) == Sum(blank) + c
    requires c == 0xffff - Csum(blank + data, Pseudo(TCP, src, dst, |hdr| + |data|))
    ensures TcpSumValid(hdr + data, |hdr|, src, dst)
  {
    var x := Sum(src) + Sum(dst) + TCP + (|hdr| + |data|);
    SegmentSums(blank, hdr, data, x, c);
    Halves(hdr, data);
  }

  lemma {:induction false} TcpVerifies(tcp: bytes, seq0: u32, flags: u8, src: bytes, dst: bytes, data: bytes)
    requires |tcp| >= TCP_MIN && |tcp| % 2 == 0 && |tcp| + |data| < TWO16
    ensures TcpSumValid(TcpWith(tcp, seq0, flags, src, dst, data) + data, |tcp|, src, dst)
  {
    var blank, hdr := TcpBlank(tcp, seq0, flags), TcpWith(tcp, seq0, flags, src, dst, data);
    var c := 0xffff - Csum(blank + data, Pseudo(TCP, src, dst, |tcp| + |data|));
    StoreAdds(Splice(Splice(tcp, 4, Seq32(seq0)), 13, [flags]), 16, c);
    SegmentVerifies(blank, hdr, data, src, dst, c);
  }

  lemma {:induction false} Halves(a: bytes, b: bytes)
    ensures (a + b)[..|a|] == a && (a + b)[|a|..] == b
  {
  }

  // ------------------------------------------------------------ one frame

  /** The headers of the packet being cut. */
  datatype Headers = Headers(link: bytes, ip: bytes, tcp: bytes) {
    /** An unfragmented IPv4 header and a TCP header, each as long as it says. */
    predicate Proper() {
      && |ip| >= IP_MIN && HeaderLen(ip) == |ip| && ip[0] / 16 == 4 && ip[9] == TCP && BE16(ip, 6) % 0x4000 == 0
      && |tcp| >= TCP_MIN && DataOffset(tcp) == |tcp|
    }

    function Size(): nat { |link| + |ip| + |tcp| }
  }

  /** A packet's bytes, padded to the Ethernet minimum. */
  function Padded(s: bytes): bytes {
    if |s| < MIN_FRAME then s + seq(MIN_FRAME - |s|, _ => 0) else s
  }

  /** The headers as the segmenter keeps them: the IPv4 one blank, with the sum of what is left of it. */
  datatype Template = Template(link: bytes, ip: bytes, base: u16, tcp: bytes, src: bytes, dst: bytes) {
    predicate Sized() { |ip| >= IP_MIN && |tcp| >= TCP_MIN }

    function Size(): nat { |link| + |ip| + |tcp| }
  }

  function TemplateOf(h: Headers): (t: Template)
    requires h.Proper()
    ensures t.Sized() && t.Size() == h.Size() && t.link == h.link && t.tcp == h.tcp && |t.ip| == |h.ip|
  {
    Template(h.link, Blank(h.ip), Csum(Blank(h.ip), 0), h.tcp, h.ip[12..16], h.ip[16..20])
  }

  /** One segment: the headers with its own length, number, flags and checksums, and its data. */
  function Segment(t: Template, seq0: u32, flags: u8, data: bytes): bytes
    requires t.Sized() && |t.ip| + |t.tcp| + |data| < TWO16
  {
    t.link + IpFrom(t.ip, t.base, |t.ip| + |t.tcp| + |data|) + TcpWith(t.tcp, seq0, flags, t.src, t.dst, data) + data
  }

  lemma {:induction false} SetOver(ip: bytes, v: u16, c: u16, w: u16, d: u16)
    requires |ip| >= IP_MIN
    ensures Set16(Set16(Set16(Set16(ip, 2, v), 10, c), 2, w), 10, d) == Set16(Set16(ip, 2, w), 10, d)
  {
    SetCommutes(Set16(ip, 2, v), 2, w, 10, c);
    SetTwice(ip, 2, v, w);
    SetTwice(Set16(ip, 2, w), 10, c, d);
  }

  /** Setting the two fields again gives what setting them once would have. */
  lemma {:induction false} IpAgain(ip: bytes, v: u16, c: u16, base: u16, total: u16, b: bytes)
    requires |ip| >= IP_MIN && b == Set16(Set16(ip, 2, v), 10, c)
    ensures IpFrom(b, base, total) == IpFrom(ip, base, total)
  {
    SetOver(ip, v, c, total, 0xffff - Combine(base, total));
  }

  lemma {:induction false} TwoSets(b: bytes, v: u16, c: u16, i: nat)
    requires |b| >= IP_MIN && i < |b|
    ensures var r := Set16(Set16(b, 2, v), 10, c);
            && (i != 2 && i != 3 && i != 10 && i != 11 ==> r[i] == b[i])
            && (i == 2 ==> r[i] == v / 256) && (i == 3 ==> r[i] == v % 256)
  {
    SetIndex(b, 2, v, i);
    SetIndex(Set16(b, 2, v), 10, c, i);
  }

  lemma {:induction false} TcpKeepsOffset(tcp: bytes, seq0: u32, flags: u8, src: bytes, dst: bytes, data: bytes)
    requires |tcp| >= TCP_MIN && |tcp| + |data| < TWO16
    ensures DataOffset(TcpWith(tcp, seq0, flags, src, dst, data)) == DataOffset(tcp)
  {
    var blank := TcpBlank(tcp, seq0, flags);
    SetIndex(blank, 16, 0xffff - Csum(blank + data, Pseudo(TCP, src, dst, |tcp| + |data|)), 12);
    SetIndex(Splice(Splice(tcp, 4, Seq32(seq0)), 13, [flags]), 16, 0, 12);
  }

  /** What an IPv4 header of a segment of `total` bytes should say. */
  ghost predicate Says(h: Headers, total: u16, ip: bytes)
    requires |h.ip| >= IP_MIN
  {
    && |ip| == |h.ip| && HeaderLen(ip) == |ip| && ip[0] / 16 == 4 && ip[9] == TCP && BE16(ip, 6) % 0x4000 == 0
    && BE16(ip, 2) == total && ip[12..16] == h.ip[12..16] && ip[16..20] == h.ip[16..20]
  }

  /** Setting the length and checksum leaves every other byte of the header alone. */
  lemma {:induction false} SetSays(h: Headers, total: u16, c: u16, ip: bytes)
    requires h.Proper() && ip == Set16(Set16(h.ip, 2, total), 10, c)
    ensures Says(h, total, ip)
  {
    forall i | 0 <= i < |h.ip|
      ensures i != 2 && i != 3 && i != 10 && i != 11 ==> ip[i] == h.ip[i]
    {
      TwoSets(h.ip, total, c, i);
    }
    TwoSets(h.ip, total, c, 2);
    TwoSets(h.ip, total, c, 3);
  }

  /** A packet put together from headers that say the right things passes the receiver's checks. */
  lemma {:induction false} PacketPasses(ip: bytes, seg: bytes, pad: bytes, b: bytes)
    requires |ip| >= IP_MIN && HeaderLen(ip) == |ip| && ip[0] / 16 == 4 && ip[9] == TCP && BE16(ip, 6) % 0x4000 == 0
    requires BE16(ip, 2) == |ip| + |seg| && Csum(ip, 0) == 0xffff && |seg| >= TCP_MIN && |ip| + |seg| < TWO16
    requires TCP_MIN <= DataOffset(seg) <= |seg| && TcpSumValid(seg, DataOffset(seg), ip[12..16], ip[16..20])
    requires b == ip + seg + pad
    ensures ChecksumsValid(b)
  {
    assert b[..|ip|] == ip && b[|ip|..|ip| + |seg|] == seg;
    assert b[12..16] == ip[12..16] && b[16..20] == ip[16..20];
  }

  lemma {:induction false} PaddedAfter(link: bytes, body: bytes, pad: bytes)
    requires pad == if |link + body| < MIN_FRAME then seq(MIN_FRAME - |link + body|, _ => 0) else []
    ensures Padded(link + body) == link + body + pad && Padded(link + body)[|link|..] == body + pad
  {
    assert link + body + [] == link + body;
  }

  lemma {:induction false} EvenHeader(h: Headers)
    requires h.Proper()
    ensures |h.tcp| % 2 == 0
  {
  }

  /** A frame put together from such headers passes, padding and all. */
  lemma {:induction false} FramePasses(h: Headers, total: u16, ip: bytes, tcp: bytes, data: bytes, frame: bytes)
    requires h.Proper() && Says(h, total, ip) && total == |ip| + |tcp| + |data| && Csum(ip, 0) == 0xffff
    requires |tcp| >= TCP_MIN && DataOffset(tcp) == |tcp| && TcpSumValid(tcp + data, |tcp|, h.ip[12..16], h.ip[16..20])
    requires frame == Padded(h.link + ip + tcp + data)
    ensures |h.link| <= |frame| && ChecksumsValid(frame[|h.link|..])
  {
    var seg := tcp + data;
    var pad := FramePadding(h.link, ip, tcp, data, frame);
    SameOffset(tcp, data);
    Halves(tcp, data);
    PacketPasses(ip, seg, pad, frame[|h.link|..]);
  }

  lemma {:induction false} SameOffset(tcp: bytes, data: bytes)
    requires |tcp| >= TCP_MIN
    ensures DataOffset(tcp + data) == DataOffset(tcp)
  {
  }

  lemma {:induction false} FramePadding(link: bytes, ip: bytes, tcp: bytes, data: bytes, frame: bytes)
    returns (pad: bytes)
    requires frame == Padded(link + ip + tcp + data)
    ensures |link| <= |frame| && frame[|link|..] == ip + (tcp + data) + pad
  {
    var body := ip + (tcp + data);
    assert link + ip + tcp + data == link + body;
    pad := if |link + body| < MIN_FRAME then seq(MIN_FRAME - |link + body|, _ => 0) else [];
    PaddedAfter(link, body, pad);
  }

  /** Every segment passes the receive path's checks. */
  lemma {:induction false} SegmentPasses(h: Headers, seq0: u32, flags: u8, data: bytes, frame: bytes)
    requires h.Proper() && |h.ip| + |h.tcp| + |data| < TWO16
             && frame == Padded(Segment(TemplateOf(h), seq0, flags, data))
    ensures |h.link| <= |frame| && ChecksumsValid(frame[|h.link|..])
  {
    var total: u16, src, dst := |h.ip| + |h.tcp| + |data|, h.ip[12..16], h.ip[16..20];
    var ip, tcp := IpWith(h.ip, total), TcpWith(h.tcp, seq0, flags, src, dst, data);
    IpAgain(h.ip, 0, 0, Csum(Blank(h.ip), 0), total, Blank(h.ip));
    EvenHeader(h);
    SetSays(h, total, 0xffff - Combine(Csum(Blank(h.ip), 0), total), ip);
    IpVerifies(h.ip, total);
    TcpKeepsOffset(h.tcp, seq0, flags, src, dst, data);
    TcpVerifies(h.tcp, seq0, flags, src, dst, data);
    FramePasses(h, total, ip, tcp, data, frame);
  }

  // ------------------------------------------------------------ a whole packet

  /** How many frames a packet becomes. */
  function Segments(gso: bool, mss: nat, size: nat): (n: nat)
    ensures n > 0
  {
    if !gso || mss == 0 || size <= mss then 1
    else
      MulAtLeast((size + mss - 1) / mss, mss);
      assert (size + mss - 1) / mss > 0 by {
        ModUnique(mss, mss, 1, 0);
        assert size + mss - 1 >= mss;
      }
      (size + mss - 1) / mss
  }

  /** The data of the next `n` segments, with `left` bytes announced and `payload` there to take. */
  function Emit(payload: bytes, left: nat, mss: nat, n: nat): (ps: seq<bytes>)
    ensures |ps| == n
    decreases n
  {
    if n == 0 then []
    else
      var want := Min(mss, left);
      var got := Min(want, |payload|);
      [payload[..got]] + Emit(payload[got..], if got == want then left - want else 0, mss, n - 1)
  }

  /** What is announced comes out whole and in order, as far as it is there. */
  lemma {:induction false} EmitJoins(payload: bytes, left: nat, mss: nat, n: nat)
    requires mss > 0 && left <= n * mss
    ensures Join(Emit(payload, left, mss, n)) == payload[..Min(left, |payload|)]
    decreases n
  {
    if n == 0 {
      assert payload[..0] == [];
    } else {
      var want := Min(mss, left);
      var got := Min(want, |payload|);
      var left1 := if got == want then left - want else 0;
      assert left1 <= (n - 1) * mss by {
        assert (n - 1) * mss == n * mss - mss;
        if got != want || left < mss {
          MulNonNegative(n - 1, mss);
        }
      }
      EmitJoins(payload[got..], left1, mss, n - 1);
      var ps := Emit(payload, left, mss, n);
      assert ps[1..] == Emit(payload[got..], left1, mss, n - 1);
      assert payload[..got] + payload[got..][..Min(left1, |payload| - got)] == payload[..Min(left, |payload|)];
    }
  }

  lemma {:induction false} MulNonNegative(a: nat, b: nat)
    ensures a * b >= 0
  {
  }

  /** A packet that is all there is cut into full segments and one last, no more than it takes. */
  lemma {:induction false} EmitIsPieces(payload: bytes, left: nat, mss: nat)
    requires mss > 0 && 0 < left <= |payload|
    ensures Emit(payload, left, mss, Buffers(left, mss)) == Pieces(payload[..left], mss)
    decreases left
  {
    BuffersStep(left, mss);
    var n := Buffers(left, mss);
    if left > mss {
      EmitIsPieces(payload[mss..], left - mss, mss);
      assert payload[..left][..mss] == payload[..mss];
      assert payload[..left][mss..] == payload[mss..][..left - mss];
    } else {
      assert Emit(payload[left..], 0, mss, 0) == [];
    }
  }

  /** So the payloads put end to end are the payload; all but the last are exactly one MSS; none is empty. */
  lemma {:induction false} PayloadPreserved(payload: bytes, mss: nat)
    requires mss > 0 && payload != []
    ensures var ps := Emit(payload, |payload|, mss, Segments(true, mss, |payload|));
            && Join(ps) == payload && |ps| == Buffers(|payload|, mss)
            && (forall k :: 0 <= k < |ps| - 1 ==> |ps[k]| == mss) && 0 < |ps[|ps| - 1]| <= mss
  {
    SegmentsAre(|payload|, mss);
    EmitAll(payload, mss);
    PiecesWhole(payload, mss);
  }

  lemma {:induction false} SegmentsAre(size: nat, mss: nat)
    requires mss > 0 && size > 0
    ensures Segments(true, mss, size) == Buffers(size, mss)
  {
    BuffersStep(size, mss);
  }

  lemma {:induction false} EmitAll(payload: bytes, mss: nat)
    requires mss > 0 && payload != []
    ensures Emit(payload, |payload|, mss, Buffers(|payload|, mss)) == Pieces(payload, mss)
  {
    EmitIsPieces(payload, |payload|, mss);
    assert payload[..|payload|] == payload;
  }

  /** How many bytes the segments before the `k`th carry. */
  lemma {:induction false} BytesBefore(payload: bytes, left: nat, mss: nat, n: nat, k: nat)
    requires mss > 0 && k <= n && k * mss <= left
    ensures |Join(Emit(payload, left, mss, n)[..k])| == Min(k * mss, |payload|)
    decreases n
  {
    var ps := Emit(payload, left, mss, n);
    if k == 0 {
      assert ps[..0] == [];
    } else {
      assert k * mss == (k - 1) * mss + mss;
      MulNonNegative(k - 1, mss);
      var got := Min(mss, |payload|);
      assert Min(mss, left) == mss;
      if got == mss {
        BytesBefore(payload[mss..], left - mss, mss, n - 1, k - 1);
        assert ps[..k][1..] == ps[1..][..k - 1] == Emit(payload[mss..], left - mss, mss, n - 1)[..k - 1];
      } else {
        NothingLeft(payload[got..], mss, n - 1, k - 1);
        assert ps[..k][1..] == ps[1..][..k - 1] == Emit(payload[got..], 0, mss, n - 1)[..k - 1];
      }
    }
  }

  lemma {:induction false} NothingLeft(payload: bytes, mss: nat, n: nat, k: nat)
    requires k <= n
    ensures Join(Emit(payload, 0, mss, n)[..k]) == []
    decreases n
  {
    var ps := Emit(payload, 0, mss, n);
    if k == 0 {
      assert ps[..0] == [];
    } else {
      assert payload[0..] == payload;
      NothingLeft(payload, mss, n - 1, k - 1);
      assert ps[..k][1..] == ps[1..][..k - 1] == Emit(payload, 0, mss, n - 1)[..k - 1];
      assert ps[..k][0] == payload[..0] == [];
    }
  }

  /** The sequence number of segment `k`. */
  function SeqAt(seq0: u32, mss: nat, k: nat): u32 { Wrap32(seq0 + Times(k, mss)) }

  /**
   Sequence numbers advance by the bytes before them exactly as long as the packet
   has the bytes it announced.
   */
  lemma {:induction false} SeqAdvances(payload: bytes, left: nat, mss: nat, n: nat, seq0: u32, k: nat)
    requires mss > 0 && k <= n && k * mss <= left < TWO32
    ensures SeqAt(seq0, mss, k) == Wrap32(seq0 + |Join(Emit(payload, left, mss, n)[..k])|) <==> k * mss <= |payload|
  {
    hide Emit, Join;
    BytesBefore(payload, left, mss, n, k);
    TimesIs(k, mss);
  }

  /** A packet that announces two bytes and has none: its second segment is numbered past what came before it. */
  lemma {:induction false} SeqRunsAhead()
    ensures SeqAt(7, 1, 1) != Wrap32(7 + |Join(Emit([], 2, 1, 2)[..1])|)
  {
    TimesIs(1, 1);
    SeqAdvances([], 2, 1, 2, 7, 1);
  }

  /** PSH and FIN are kept for the last segment. */
  function FlagsAt(flags: u8, last: bool): u8 {
    AndNotAtMost(flags, FIN + PSH);
    if last then flags else AndNot(flags, FIN + PSH)
  }

  lemma {:induction false} AndNotAtMost(a: nat, b: nat)
    ensures AndNot(a, b) <= a
  {
    if a > 0 {
      AndNotAtMost(a / 2, b / 2);
    }
  }

  lemma {:induction false} AndNotBit(a: nat, b: nat, i: nat)
    ensures Bit(AndNot(a, b), i) <==> Bit(a, i) && !Bit(b, i)
    decreases i
  {
    var r := AndNot(a, b);
    if a > 0 {
      assert r == (a % 2) * (1 - b % 2) + 2 * AndNot(a / 2, b / 2);
      assert r / 2 == AndNot(a / 2, b / 2) && r % 2 == (a % 2) * (1 - b % 2);
      if i > 0 {
        AndNotBit(a / 2, b / 2, i - 1);
      }
    } else {
      NoBits(i);
    }
  }

  lemma {:induction false} FlagsKept(flags: u8, last: bool, i: nat)
    requires i < 8
    ensures Bit(FlagsAt(flags, last), i) <==> Bit(flags, i) && (last || (i != 0 && i != 3))
  {
    AndNotBit(flags, 9, i);
    assert Bit(9, 0) && !Bit(9, 1) && !Bit(9, 2) && Bit(9, 3) && !Bit(9, 4) && !Bit(9, 5) && !Bit(9, 6) && !Bit(9, 7);
  }

  /** What a packet's frames have in common: its headers, its first number and flags, and how it is cut. */
  datatype Shape = Shape(t: Template, seq0: u32, flags: u8, mss: nat, n: nat) {
    /** Data of up to `mss` bytes goes with the headers into one packet. */
    predicate Sized() { t.Sized() && |t.ip| + |t.tcp| + mss < TWO16 }

    /** Frame `k` of the `n` that the packet becomes. */
    function Frame(k: nat, data: bytes): bytes {
      if t.Sized() && |t.ip| + |t.tcp| + |data| < TWO16 then
        Padded(Segment(t, SeqAt(seq0, mss, k), FlagsAt(flags, k == n - 1), data))
      else []
    }
  }
}
