/** What the frames of a packet mean to whoever receives them. */
module NetFrames {
  import opened Words
  import opened Bytes
  import opened Checksum
  import opened Inet
  import opened Gso
  import opened Tpacket
  import opened Segmenter
  import opened NetTx

  // ------------------------------------------------------ a packet in one frame

  /** Completing a segment inside a packet is completing it by itself. */
  lemma {:induction false} SumInside(front: bytes, seg: bytes, rest: bytes, src: bytes, dst: bytes)
    requires TCP_MIN <= |seg| < TWO16
    ensures WithSum(front + seg + rest, |front|, |front| + |seg|, src, dst)
         == front + WithSum(seg, 0, |seg|, src, dst) + rest
  {
    hide TcpField, Set16;
    var blank := Set16(seg, 16, 0);
    SetInside(front, seg, rest, 16, 0);
    assert (front + blank + rest)[|front|..|front| + |seg|] == blank == blank[0..|seg|];
    SetInside(front, blank, rest, 16, TcpField(blank, src, dst));
  }

  lemma {:induction false} SetInside(front: bytes, seg: bytes, rest: bytes, k: nat, v: u16)
    requires k + 2 <= |seg|
    ensures Set16(front + seg + rest, |front| + k, v) == front + Set16(seg, k, v) + rest
  {
    hide Splice;
    SpliceMid(front, seg, rest, k, ToBE16(v));
  }

  /** A completed segment is one the receiver accepts. */
  lemma {:induction false} SumAccepted(seg: bytes, src: bytes, dst: bytes)
    requires TCP_MIN <= |seg| < TWO16 && TCP_MIN <= DataOffset(seg) <= |seg|
    ensures var done := WithSum(seg, 0, |seg|, src, dst);
            DataOffset(done) == DataOffset(seg) && TcpSumValid(done, DataOffset(seg), src, dst)
  {
    hide Splice, Fold, Sum, Pseudo, TcpSumValid;
    var off := DataOffset(seg);
    var hdr, data := seg[..off], seg[off..];
    assert seg == hdr + data;
    var blank := Set16(hdr, 16, 0);
    SetPrefix(hdr, data, 16, 0);
    assert (blank + data)[0..|seg|] == blank + data;
    var c := TcpField(blank + data, src, dst);
    SetPrefix(blank, data, 16, c);
    StoreAdds(hdr, 16, c);
    SegmentVerifies(blank, Set16(blank, 16, c), data, src, dst, c);
    OffsetKept(seg, c);
  }

  lemma {:induction false} OffsetKept(seg: bytes, c: u16)
    requires TCP_MIN <= |seg|
    ensures DataOffset(Store(seg, 16, c)) == DataOffset(seg)
  {
    SetIndex(seg, 16, 0, 12);
    SetIndex(Set16(seg, 16, 0), 16, c, 12);
  }

  /** A packet whose IPv4 header is in order, is not a fragment and says TCP. */
  ghost predicate Ordinary(b: bytes) {
    IpValid(b) && IpSumValid(b) && BE16(b, 6) % 0x4000 == 0 && b[9] == TCP
  }

  /** Its segment is long enough for a TCP header, and for the one it says it has. */
  ghost predicate Parses(b: bytes)
    requires IpValid(b)
  {
    var seg := b[HeaderLen(b)..BE16(b, 2)];
    |seg| >= TCP_MIN && TCP_MIN <= DataOffset(seg) <= |seg|
  }

  /** Completed, such a packet is accepted exactly when its segment is long enough. */
  lemma {:induction false} FinishedIff(link: bytes, b: bytes, pad: bytes)
    requires Ordinary(b)
    ensures ChecksumsValid((Finished(link + b, |link|) + pad)[|link|..]) <==> Parses(b)
  {
    hide Fold, Sum, WithSum, Csum, TcpSumValid, ChecksumsValid, Finished;
    var ipLen, total := HeaderLen(b), BE16(b, 2);
    var ip, seg, rest := b[..ipLen], b[ipLen..total], b[total..];
    var done := (Finished(link + b, |link|) + pad)[|link|..];
    if |seg| < TCP_MIN {
      TooShort(link, b, pad);
    } else {
      FinishedParts(link, b, ip, seg, rest);
      var src, dst := b[12..16], b[16..20];
      var seg1 := WithSum(seg, 0, |seg|, src, dst);
      assert done == ip + seg1 + (rest + pad) by {
        assert (link + ip + seg1 + rest + pad) == link + (ip + seg1 + (rest + pad));
      }
      PartsIff(ip, seg, seg1, rest + pad, b, done);
    }
  }

  /** The IPv4 header reads the same whatever follows it. */
  lemma {:induction false} HeaderReads(ip: bytes, a: bytes, c: bytes)
    requires |ip| >= IP_MIN
    ensures HeaderLen(ip + a) == HeaderLen(ip + c) && BE16(ip + a, 2) == BE16(ip + c, 2)
            && BE16(ip + a, 6) == BE16(ip + c, 6)
    ensures (ip + a)[0] == (ip + c)[0] && (ip + a)[9] == (ip + c)[9]
    ensures (ip + a)[12..16] == (ip + c)[12..16] && (ip + a)[16..20] == (ip + c)[16..20]
  {
  }

  lemma {:induction false} TooShort(link: bytes, b: bytes, pad: bytes)
    requires Ordinary(b) && BE16(b, 2) - HeaderLen(b) < TCP_MIN
    ensures !ChecksumsValid((Finished(link + b, |link|) + pad)[|link|..])
  {
    hide Fold, Sum, WithSum;
    assert (link + b)[|link|..] == b;
    assert BE16(link + b, |link| + 2) == BE16(b, 2);
    assert (link + b + pad)[|link|..] == b + pad;
    HeaderReads(b, [], pad);
    assert b + [] == b;
  }

  lemma {:induction false} FinishedParts(link: bytes, b: bytes, ip: bytes, seg: bytes, rest: bytes)
    requires Ordinary(b) && |seg| >= TCP_MIN
    requires ip == b[..HeaderLen(b)] && seg == b[HeaderLen(b)..BE16(b, 2)] && rest == b[BE16(b, 2)..]
    ensures Finished(link + b, |link|) == link + ip + WithSum(seg, 0, |seg|, b[12..16], b[16..20]) + rest
  {
    hide Fold, Sum, WithSum, IpSumValid;
    var l := |link|;
    assert (link + b)[l..] == b;
    assert BE16(link + b, l + 2) == BE16(b, 2);
    assert (link + b)[l + 12..l + 16] == b[12..16] && (link + b)[l + 16..l + 20] == b[16..20];
    assert link + b == (link + ip) + seg + rest;
    SumInside(link + ip, seg, rest, b[12..16], b[16..20]);
  }

  lemma {:induction false} PartsIff(ip: bytes, seg: bytes, seg1: bytes, tail: bytes, b: bytes, done: bytes)
    requires Ordinary(b) && ip == b[..HeaderLen(b)] && seg == b[HeaderLen(b)..BE16(b, 2)] && |seg| >= TCP_MIN
    requires seg1 == WithSum(seg, 0, |seg|, b[12..16], b[16..20]) && done == ip + seg1 + tail
    ensures ChecksumsValid(done) <==> Parses(b)
  {
    hide Fold, Sum, WithSum, Csum, TcpSumValid;
    var after := b[HeaderLen(b)..];
    assert b == ip + after && done == ip + (seg1 + tail) && ip == ip + [];
    HeaderReads(ip, after, seg1 + tail);
    HeaderReads(ip, after, []);
    if Parses(b) {
      SumAccepted(seg, b[12..16], b[16..20]);
      PacketPasses(ip, seg1, tail, done);
    } else {
      OffsetStays(seg, b[12..16], b[16..20]);
      assert done[|ip|..|ip| + |seg1|] == seg1;
    }
  }

  lemma {:induction false} OffsetStays(seg: bytes, src: bytes, dst: bytes)
    requires TCP_MIN <= |seg| < TWO16
    ensures DataOffset(WithSum(seg, 0, |seg|, src, dst)) == DataOffset(seg)
  {
    hide TcpField;
    OffsetKept(seg, TcpField(Set16(seg, 16, 0)[0..|seg|], src, dst));
  }

  /**
   The one frame of a packet left for the endpoint to complete: the receiver accepts it
   exactly when its segment is long enough for the header it says it has, and otherwise
   it goes out as the stack made it.
   */
  lemma {:induction false} SingleIff(link: Link, p: Packet)
    requires link.Takes(p) && p.Frames() == 1 && p.csum && Ordinary(p.Body()[link.len..])
    ensures |Single(p, link.len)| >= link.len
    ensures ChecksumsValid(Single(p, link.len)[link.len..]) <==> Parses(p.Body()[link.len..])
    ensures BE16(p.Body(), link.len + 2) - HeaderLen(p.Body()[link.len..]) < TCP_MIN
        ==> Single(p, link.len) == Padded(p.Body())
  {
    hide Ordinary, Parses, WithSum, ChecksumsValid;
    var all := p.Body();
    var l, b := all[..link.len], all[link.len..];
    assert all == l + b;
    PaddedIs(Finished(all, link.len));
    FinishedIff(l, b, Zeros(|all|));
  }

  /**
   The one frame of such a packet is the packet, but for the two bytes of its TCP checksum,
   and behind it nothing, or zeros up to the shortest frame.
   */
  lemma {:induction false} SingleKeeps(link: Link, p: Packet, i: nat)
    requires link.Takes(p) && p.Frames() == 1 && i < |Single(p, link.len)|
    ensures |Single(p, link.len)| == if |p.Body()| < 60 then 60 else |p.Body()|
    ensures i >= |p.Body()| ==> Single(p, link.len)[i] == 0
    ensures i < |p.Body()| ==>
              || Single(p, link.len)[i] == p.Body()[i]
              || (p.csum && (i == link.len + HeaderLen(p.Body()[link.len..]) + 16
                             || i == link.len + HeaderLen(p.Body()[link.len..]) + 17))
  {
    hide TcpField, Set16;
    var b := p.Body();
    if p.csum {
      var done, lo, hi := Finished(b, link.len), link.len + HeaderLen(b[link.len..]), link.len + BE16(b, link.len + 2);
      PaddedIs(done);
      if i < |b| && hi - lo >= TCP_MIN {
        var src, dst := b[link.len + 12..link.len + 16], b[link.len + 16..link.len + 20];
        var c := TcpField(Set16(b, lo + 16, 0)[lo..hi], src, dst);
        SetIndex(b, lo + 16, 0, i);
        SetIndex(Set16(b, lo + 16, 0), lo + 16, c, i);
      }
    } else {
      PaddedIs(b);
    }
  }

  /** An IPv4 header that says TCP and has nothing after it. */
  const BARE: bytes := [0x45, 0, 0, 20, 0, 0, 0, 0, 0x40, 6, 0x7a, 0xe5, 0, 0, 0, 0, 0, 0, 0, 0]

  lemma {:induction false} BareSum()
    ensures Sum(BARE) == 0xffff
  {
    assert SumFrom(BARE, 12) == 0;
    assert SumFrom(BARE, 10) == BE16(BARE, 10) + SumFrom(BARE, 12);
    assert SumFrom(BARE, 8) == BE16(BARE, 8) + SumFrom(BARE, 10);
    assert SumFrom(BARE, 6) == SumFrom(BARE, 8) == SumFrom(BARE, 4);
    assert SumFrom(BARE, 2) == BE16(BARE, 2) + SumFrom(BARE, 4);
  }

  lemma {:induction false} BareOrdinary()
    ensures |BARE| == 20 && HeaderLen(BARE) == 20 == BE16(BARE, 2) && Ordinary(BARE)
  {
    hide Fold, Sum;
    BareSum();
    assert BARE[..20] == BARE;
    FoldIs(0xffff);
  }

  lemma {:induction false} OneView(b: bytes)
    ensures Join([b]) == b && b[0..] == b
  {
    assert [b][1..] == [] && b + [] == b;
  }

  /** A packet that fails: in order as IPv4 goes, but with no TCP header for a checksum to go into. */
  lemma {:induction false} BareFails()
    ensures var link, p := Link(0, 64), Packet.Packet([BARE], 0, Headers([], [], []), 0, false, 0, true);
            && link.Takes(p) && p.Frames() == 1 && Ordinary(p.Body()[link.len..])
            && !ChecksumsValid(Single(p, link.len)[link.len..])
  {
    hide Ordinary, ChecksumsValid, Single, Join;
    var link, p := Link(0, 64), Packet.Packet([BARE], 0, Headers([], [], []), 0, false, 0, true);
    BareOrdinary();
    OneView(BARE);
    SingleIff(link, p);
  }

  // ----------------------------------------------------- a packet in many frames

  /** The segment's number and flags, as the frame has them. */
  ghost predicate Carries(h: Headers, frame: bytes, number: u32, flags: u8, data: bytes) {
    var at := |h.link| + |h.ip|;
    && |h.ip| >= IP_MIN && |h.tcp| >= TCP_MIN && h.Size() + |data| <= |frame|
    && Get32(frame, at + 4) == number && frame[at + 13] == flags
    && BE16(frame, |h.link| + 2) == |h.ip| + |h.tcp| + |data|
    && frame[h.Size()..h.Size() + |data|] == data
  }

  lemma {:induction false} NumberReads(number: u32, b: bytes, at: nat)
    requires at + 4 <= |b| && b[at..at + 4] == Seq32(number)
    ensures Get32(b, at) == number
  {
    var hi: u16, lo: u16 := number / 0x10000, number % 0x10000;
    var s := Seq32(number);
    assert s[0] == b[at] && s[1] == b[at + 1] && s[2] == b[at + 2] && s[3] == b[at + 3];
    assert s == ToBE16(hi) + ToBE16(lo);
    assert BE16(b, at) == BE16(ToBE16(hi), 0) == hi && BE16(b, at + 2) == BE16(ToBE16(lo), 0) == lo;
  }

  /** The number and flags of a stamped header are the ones it was stamped with. */
  lemma {:induction false} StampReads(tcp: bytes, number: u32, flags: u8, src: bytes, dst: bytes, data: bytes)
    requires |tcp| >= TCP_MIN && |tcp| + |data| < TWO16
    ensures var r := TcpWith(tcp, number, flags, src, dst, data); r[4..8] == Seq32(number) && r[13] == flags
  {
    hide Csum, Pseudo, Seq32;
    var blank := TcpBlank(tcp, number, flags);
    var stamped := Splice(Splice(tcp, 4, Seq32(number)), 13, [flags]);
    SpliceOwn(tcp, 4, Seq32(number));
    SpliceApart(Splice(tcp, 4, Seq32(number)), 13, [flags], 4, 8);
    Untouched(stamped, 0);
    Untouched(blank, 0xffff - Csum(blank + data, Pseudo(TCP, src, dst, |tcp| + |data|)));
  }

  lemma {:induction false} Untouched(b: bytes, v: u16)
    requires |b| >= TCP_MIN
    ensures Set16(b, 16, v)[4..8] == b[4..8] && Set16(b, 16, v)[13] == b[13]
  {
    hide Splice;
    SpliceApart(b, 16, ToBE16(v), 4, 8);
    SetIndex(b, 16, v, 13);
  }

  /** Reading a frame put together from its parts. */
  lemma {:induction false} PartsRead(h: Headers, ip: bytes, tcp: bytes, data: bytes, pad: bytes, number: u32, flags: u8)
    requires |ip| == |h.ip| >= IP_MIN && |tcp| == |h.tcp| >= TCP_MIN && |ip| + |tcp| + |data| < TWO16
    requires tcp[4..8] == Seq32(number) && tcp[13] == flags && BE16(ip, 2) == |ip| + |tcp| + |data|
    ensures Carries(h, h.link + ip + tcp + data + pad, number, flags, data)
  {
    hide Seq32;
    var frame := h.link + ip + tcp + data + pad;
    var at := |h.link| + |ip|;
    assert frame[at + 4..at + 8] == tcp[4..8];
    NumberReads(number, frame, at + 4);
    assert BE16(frame, |h.link| + 2) == BE16(ip, 2);
  }

  /** One frame: accepted by the receiver, and carrying its number, flags and data. */
  lemma {:induction false} FrameMeans(h: Headers, number: u32, flags: u8, data: bytes, frame: bytes)
    requires h.Proper() && |h.ip| + |h.tcp| + |data| < TWO16
    requires frame == Padded(Segment(TemplateOf(h), number, flags, data))
    ensures Carries(h, frame, number, flags, data) && ChecksumsValid(frame[|h.link|..])
  {
    hide Csum, Fold, Sum, ChecksumsValid, Carries, TcpWith, IpFrom;
    SegmentPasses(h, number, flags, data, frame);
    var total: u16, t := |h.ip| + |h.tcp| + |data|, TemplateOf(h);
    var ip, tcp := IpFrom(t.ip, t.base, total), TcpWith(t.tcp, number, flags, t.src, t.dst, data);
    IpReads(h, total);
    StampReads(t.tcp, number, flags, t.src, t.dst, data);
    PaddedIs(h.link + ip + tcp + data);
    PartsRead(h, ip, tcp, data, Zeros(|h.link + ip + tcp + data|), number, flags);
  }

  lemma {:induction false} IpReads(h: Headers, total: u16)
    requires h.Proper()
    ensures BE16(IpFrom(TemplateOf(h).ip, TemplateOf(h).base, total), 2) == total
  {
    hide Csum;
    var base, c := Csum(Blank(h.ip), 0), 0xffff - Combine(Csum(Blank(h.ip), 0), total);
    TwoSets(Blank(h.ip), total, c, 2);
    TwoSets(Blank(h.ip), total, c, 3);
  }

  /**
   The bytes of the headers a segment may have its own of: IPv4 length and checksum, TCP number,
   flags and checksum.
   */
  predicate OwnByte(h: Headers, i: nat) {
    var ip, tcp := i - |h.link|, i - |h.link| - |h.ip|;
    || (ip < |h.ip| && (ip == 2 || ip == 3 || ip == 10 || ip == 11))
    || 4 <= tcp <= 7 || tcp == 13 || tcp == 16 || tcp == 17
  }

  /** All other bytes are the packet's, and behind the data there is nothing, or zeros up to the shortest frame. */
  ghost predicate Keeps(h: Headers, frame: bytes, n: nat) {
    && |frame| == (if h.Size() + n < 60 then 60 else h.Size() + n)
    && (forall i {:trigger frame[i]} :: 0 <= i < h.Size() && !OwnByte(h, i) ==> frame[i] == (h.link + h.ip + h.tcp)[i])
    && (forall i {:trigger frame[i]} :: h.Size() + n <= i < |frame| ==> frame[i] == 0)
  }

  lemma {:induction false} TcpKeeps(tcp: bytes, number: u32, flags: u8, src: bytes, dst: bytes, data: bytes, i: nat)
    requires |tcp| >= TCP_MIN && |tcp| + |data| < TWO16 && i < |tcp|
    ensures !(4 <= i <= 7) && i != 13 && i != 16 && i != 17 ==> TcpWith(tcp, number, flags, src, dst, data)[i] == tcp[i]
  {
    hide Csum, Pseudo, Seq32, Set16;
    var blank := TcpBlank(tcp, number, flags);
    SetIndex(blank, 16, 0xffff - Csum(blank + data, Pseudo(TCP, src, dst, |tcp| + |data|)), i);
    SetIndex(Splice(Splice(tcp, 4, Seq32(number)), 13, [flags]), 16, 0, i);
  }

  lemma {:induction false} IpKeeps(ip: bytes, base: u16, total: u16, i: nat)
    requires |ip| >= IP_MIN && i < |ip|
    ensures i != 2 && i != 3 && i != 10 && i != 11 ==> IpFrom(Blank(ip), base, total)[i] == ip[i]
  {
    hide Csum;
    TwoSets(ip, 0, 0, i);
    TwoSets(Blank(ip), total, 0xffff - Combine(base, total), i);
  }

  lemma {:induction false} SegmentKeeps(h: Headers, number: u32, flags: u8, data: bytes, frame: bytes)
    requires h.Proper() && |h.ip| + |h.tcp| + |data| < TWO16
    requires frame == Padded(Segment(TemplateOf(h), number, flags, data))
    ensures Keeps(h, frame, |data|)
  {
    hide Csum, TcpWith, IpFrom, Blank;
    var total: u16, t := |h.ip| + |h.tcp| + |data|, TemplateOf(h);
    var ip, tcp := IpFrom(t.ip, t.base, total), TcpWith(t.tcp, number, flags, t.src, t.dst, data);
    var body := h.link + ip + tcp + data;
    PaddedIs(body);
    forall i | 0 <= i < h.Size() && !OwnByte(h, i)
      ensures frame[i] == (h.link + h.ip + h.tcp)[i]
    {
      assert frame[i] == body[i];
      if |h.link| <= i < |h.link| + |h.ip| {
        IpKeeps(h.ip, t.base, total, i - |h.link|);
      } else if i >= |h.link| + |h.ip| {
        TcpKeeps(t.tcp, number, flags, t.src, t.dst, data, i - |h.link| - |h.ip|);
      }
    }
  }

  /** The data of a frame: what its lengths say it carries. */
  ghost function DataIn(h: Headers, frame: bytes): bytes {
    if |frame| >= |h.link| + 4 && h.Size() <= |h.link| + BE16(frame, |h.link| + 2) <= |frame|
    then frame[h.Size()..|h.link| + BE16(frame, |h.link| + 2)] else []
  }

  ghost function DataOf(h: Headers, fs: seq<bytes>): seq<bytes> {
    if fs == [] then [] else [DataIn(h, fs[0])] + DataOf(h, fs[1..])
  }

  /** What is said of frame `k` of a packet. */
  ghost predicate FrameSays(p: Packet, k: nat, frame: bytes)
    requires p.hs.Proper()
  {
    var c := p.Common();
    && |p.hs.link| <= |frame| && ChecksumsValid(frame[|p.hs.link|..])
    && Carries(p.hs, frame, SeqAt(c.seq0, c.mss, k), FlagsAt(c.flags, k == c.n - 1), DataIn(p.hs, frame))
    && Keeps(p.hs, frame, |DataIn(p.hs, frame)|)
  }

  lemma {:induction false} FrameIs(p: Packet, k: nat, d: bytes)
    requires p.hs.Proper() && p.Common().Sized() && |d| <= p.mss
    ensures var f := p.Common().Frame(k, d); FrameSays(p, k, f) && DataIn(p.hs, f) == d
  {
    hide ChecksumsValid, SeqAt, FlagsAt, TemplateOf, Segment, Padded, Packet.Frames, Keeps;
    var c := p.Common();
    SegmentKeeps(p.hs, SeqAt(c.seq0, c.mss, k), FlagsAt(c.flags, k == c.n - 1), d, c.Frame(k, d));
    FrameMeans(p.hs, SeqAt(c.seq0, c.mss, k), FlagsAt(c.flags, k == c.n - 1), d, c.Frame(k, d));
  }

  ghost predicate AllSay(p: Packet, k: nat, fs: seq<bytes>)
    requires p.hs.Proper()
  {
    forall i {:trigger fs[i]} :: 0 <= i < |fs| ==> FrameSays(p, k + i, fs[i])
  }

  lemma {:induction false} FramesAre(p: Packet, k: nat, ds: seq<bytes>)
    requires p.hs.Proper() && p.Common().Sized() && forall i {:trigger ds[i]} :: 0 <= i < |ds| ==> |ds[i]| <= p.mss
    ensures var fs := SegFrames(p.Common(), k, ds); AllSay(p, k, fs) && DataOf(p.hs, fs) == ds
    decreases |ds|
  {
    hide Shape.Frame, FrameSays, DataIn, Packet.Frames, Packet.Common, Headers.Proper, Shape.Sized;
    if ds != [] {
      FrameIs(p, k, ds[0]);
      FramesAre(p, k + 1, ds[1..]);
      var fs := SegFrames(p.Common(), k, ds);
      var more := SegFrames(p.Common(), k + 1, ds[1..]);
      assert fs[1..] == more;
      forall i | 0 <= i < |fs|
        ensures FrameSays(p, k + i, fs[i])
      {
        if i > 0 {
          assert fs[i] == more[i - 1] && FrameSays(p, (k + 1) + (i - 1), more[i - 1]);
        }
      }
    }
  }

  lemma {:induction false} EmitSmall(payload: bytes, left: nat, mss: nat, n: nat)
    ensures forall i {:trigger Emit(payload, left, mss, n)[i]} :: 0 <= i < n ==> |Emit(payload, left, mss, n)[i]| <= mss
    decreases n
  {
    if n > 0 {
      var want := Min(mss, left);
      var got := Min(want, |payload|);
      var left1 := if got == want then left - want else 0;
      EmitSmall(payload[got..], left1, mss, n - 1);
      var ps, more := Emit(payload, left, mss, n), Emit(payload[got..], left1, mss, n - 1);
      assert ps == [payload[..got]] + more;
    }
  }

  /**
   The frames of a split packet: as many as its size takes, each accepted by the
   receiver, numbered and flagged as one segment of the packet, and together carrying
   the payload the packet announced, in order, as far as it is there.
   */
  lemma {:induction false} SplitMeans(link: Link, p: Packet)
    requires link.Takes(p) && p.Frames() > 1
    ensures var fs := link.Frames(p);
            && |fs| == Buffers(p.size, p.mss) && AllSay(p, 0, fs)
            && Join(DataOf(p.hs, fs)) == p.Payload()[..Min(p.size, |p.Payload()|)]
  {
    hide AllSay, DataIn, Shape.Frame, Shape.Sized, SegFrames, Join, Headers.Proper;
    var n := p.Frames();
    SegmentsAre(p.size, p.mss);
    EmitSmall(p.Payload(), p.size, p.mss, n);
    FramesAre(p, 0, Emit(p.Payload(), p.size, p.mss, n));
    EnoughFrames(p.size, p.mss);
    EmitJoins(p.Payload(), p.size, p.mss, n);
  }

  lemma {:induction false} EnoughFrames(size: nat, mss: nat)
    requires mss > 0
    ensures size <= Buffers(size, mss) * mss
  {
    var q := size + mss - 1;
    assert q == mss * (q / mss) + q % mss;
  }

  /** Four bytes, the first the highest. */
  function FourBytes(b: bytes, at: nat): nat
    requires at + 4 <= |b|
  {
    var w: int, x: int, y: int, z: int := b[at], b[at + 1], b[at + 2], b[at + 3];
    0x1000000 * w + 0x10000 * x + 0x100 * y + z
  }

  lemma {:induction false} FourBytesAre(b: bytes, at: nat)
    requires at + 4 <= |b|
    ensures Get32(b, at) == FourBytes(b, at)
  {
    var x: int, y: int := BE16(b, at), BE16(b, at + 2);
    var b0: int, b1: int, b2: int, b3: int := b[at], b[at + 1], b[at + 2], b[at + 3];
    assert x == 256 * b0 + b1 && y == 256 * b2 + b3;
  }

  /**
   Frame `k`, in the bytes of the two TCP headers: numbered `k` segments after the
   packet, and flagged as the packet is, without FIN and PSH before the last.
   */
  lemma {:induction false} SplitNumbers(link: Link, p: Packet, k: nat)
    requires link.Takes(p) && p.Frames() > 1 && k < |link.Frames(p)|
    ensures var f, at := link.Frames(p)[k], |p.hs.link| + |p.hs.ip|;
            && at + 20 <= |f| && |p.hs.tcp| >= 20
            && FourBytes(f, at + 4) == (FourBytes(p.hs.tcp, 4) + k * p.mss) % 0x1_0000_0000
            && Flagged(f[at + 13], p.hs.tcp[13], k == |link.Frames(p)| - 1)
  {
    hide DataIn, Shape.Frame, Shape.Sized, SegFrames, Join, FlagsAt, Flagged, FourBytes, ChecksumsValid;
    hide Keeps, Get32, Times;
    SplitMeans(link, p);
    SegmentsAre(p.size, p.mss);
    var f, at := link.Frames(p)[k], |p.hs.link| + |p.hs.ip|;
    assert FrameSays(p, 0 + k, f);
    FourBytesAre(f, at + 4);
    FourBytesAre(p.hs.tcp, 4);
    TimesIs(k, p.mss);
    FlagsAre(p.hs.tcp[13], k == |link.Frames(p)| - 1);
  }

  /** The flags of a segment: the packet's, all of them in the last, and without bits 0 and 3 before it. */
  ghost predicate Flagged(flags: u8, all: u8, last: bool) {
    && (last ==> flags == all)
    && (!last ==> forall i {:trigger Bit(flags, i)} :: 0 <= i < 8 ==>
       (Bit(flags, i) <==> Bit(all, i) && i != 0 && i != 3))
  }

  lemma {:induction false} FlagsAre(flags: u8, last: bool)
    ensures Flagged(FlagsAt(flags, last), flags, last)
  {
    hide Bit;
    forall i | 0 <= i < 8
      ensures Bit(FlagsAt(flags, last), i) <==> Bit(flags, i) && (last || (i != 0 && i != 3))
    {
      FlagsKept(flags, last, i);
    }
  }

  /** A packet that has what it announces: full segments but the last, numbered by the bytes before them. */
  lemma {:induction false} SplitWhole(link: Link, p: Packet, k: nat)
    requires link.Takes(p) && p.Frames() > 1 && p.size == |p.Payload()| < TWO32 && k < p.Frames()
    ensures var ds := DataOf(p.hs, link.Frames(p));
            && |ds| == p.Frames() && Join(ds) == p.Payload()
            && (if k < |ds| - 1 then |ds[k]| == p.mss else 0 < |ds[k]| <= p.mss)
            && SeqAt(p.Common().seq0, p.mss, k) == Wrap32(p.Common().seq0 + |Join(ds[..k])|)
  {
    hide AllSay, DataIn, Shape.Frame, Shape.Sized, SegFrames, Join, Headers.Proper, SeqAt;
    var n := p.Frames();
    EmitSmall(p.Payload(), p.size, p.mss, n);
    FramesAre(p, 0, Emit(p.Payload(), p.size, p.mss, n));
    PayloadPreserved(p.Payload(), p.mss);
    BeforeLast(p.size, p.mss, n, k);
    SeqAdvances(p.Payload(), p.size, p.mss, n, p.Common().seq0, k);
  }

  lemma {:induction false} BeforeLast(size: nat, mss: nat, n: nat, k: nat)
    requires mss > 0 && size > 0 && n == Segments(true, mss, size) && k < n
    ensures k * mss <= size
  {
    hide Segments;
    SegmentsAre(size, mss);
    LastBegins(size, mss, n);
    MulMono(k, n - 1, mss);
  }

  /** The last of the segments that hold `size` bytes begins before their end. */
  lemma {:induction false} LastBegins(size: nat, mss: nat, n: nat)
    requires mss > 0 && n == Buffers(size, mss) > 0
    ensures (n - 1) * mss <= size
  {
    var q := size + mss - 1;
    assert q == mss * n + q % mss;
    assert (n - 1) * mss == mss * n - mss;
  }
}
