/** The segmenter: it keeps a header template and a cursor into the payload, and writes one frame a call. */
module Segmenter {
  import opened Words
  import opened Bytes
  import opened Checksum
  import opened Inet
  import opened Gso
  import opened Tpacket

  // ------------------------------------------------------- sections of a frame

  /** A write inside the middle section of a frame changes that section alone. */
  lemma {:induction false} SpliceMid(a: bytes, b: bytes, c: bytes, k: nat, s: bytes)
    requires k + |s| <= |b|
    ensures Splice(a + b + c, |a| + k, s) == a + Splice(b, k, s) + c
  {
  }

  method PutMid(frame: array<u8>, k: nat, s: bytes, at: nat, ghost a: bytes, ghost b: bytes, ghost c: bytes)
    requires frame[..] == a + b + c && at == |a| + k && k + |s| <= |b|
    modifies frame
    ensures frame[..] == a + Splice(b, k, s) + c
  {
    SpliceMid(a, b, c, k, s);
    Blit(frame, at, s);
  }

  /** Stamps an IPv4 header in place with a total length and the incremental checksum of it. */
  method SetIPLength(frame: array<u8>, linkLen: nat, base: u16, total: u16, ghost a: bytes, ghost b: bytes,
                     ghost c: bytes)
    requires frame[..] == a + b + c && linkLen == |a| && |b| >= IP_MIN
    modifies frame
    ensures frame[..] == a + IpFrom(b, base, total) + c
  {
    PutFields(frame, linkLen, total, 0xffff - Combine(base, total), a, b, c);
  }

  method PutFields(frame: array<u8>, linkLen: nat, total: u16, sum: u16, ghost a: bytes, ghost b: bytes, ghost c: bytes)
    requires frame[..] == a + b + c && linkLen == |a| && |b| >= IP_MIN
    modifies frame
    ensures frame[..] == a + Set16(Set16(b, 2, total), 10, sum) + c
  {
    PutMid(frame, 2, ToBE16(total), linkLen + 2, a, b, c);
    PutMid(frame, 10, ToBE16(sum), linkLen + 10, a, Set16(b, 2, total), c);
  }

  // ------------------------------------------------------------------ payload

  /** What a cursor at byte `off` of view `v` has still to read. */
  ghost function RestOf(views: seq<bytes>, v: nat, off: nat): bytes {
    if v < |views| && off <= |views[v]| then views[v][off..] + Join(views[v + 1..]) else []
  }

  /** Moving along inside a view takes bytes off the front of what is left. */
  lemma {:induction false} MoveAlong(views: seq<bytes>, v: nat, off: nat, k: nat)
    requires v < |views| && off + k <= |views[v]|
    ensures var all := RestOf(views, v, off);
            k <= |all| && RestOf(views, v, off + k) == all[k..] && views[v][off..off + k] == all[..k]
  {
    var s, more := views[v][off..], Join(views[v + 1..]);
    assert (s + more)[k..] == s[k..] + more && s[k..] == views[v][off + k..];
    assert (s + more)[..k] == s[..k] && s[..k] == views[v][off..off + k];
  }

  /** The end of a view is the start of the next. */
  lemma {:induction false} NextView(views: seq<bytes>, v: nat)
    requires v < |views|
    ensures RestOf(views, v, |views[v]|) == RestOf(views, v + 1, 0)
  {
    var s := views[v];
    assert s[|s|..] == [];
    if v + 1 < |views| {
      assert views[v + 1..][0] == views[v + 1] && views[v + 1..][1..] == views[v + 2..];
      assert views[v + 1][0..] == views[v + 1];
    } else {
      assert views[v + 1..] == [];
    }
  }

  lemma {:induction false} Drops(all: bytes, done: nat, k: nat)
    requires done + k <= |all|
    ensures all[done..][k..] == all[done + k..] && all[..done] + all[done..][..k] == all[..done + k]
  {
  }

  // ------------------------------------------------------------------ the class

  class Splitter {
    /** The header template, first number and flags, and how the payload is cut. */
    var c: Shape

    /** Bytes of payload not emitted yet, and the segment that comes next. */
    var left: nat
    var seg: nat

    /** The payload cursor: byte `off` of view `v`. */
    var views: seq<bytes>
    var v: nat
    var off: nat

    /** What the cursor has still to read. */
    ghost function Rest(): bytes
      reads this`views, this`v, this`off
    {
      RestOf(views, v, off)
    }

    ghost predicate CursorOK()
      reads this`views, this`v, this`off
    {
      v <= |views| && (v == |views| ==> off == 0) && (v < |views| ==> off <= |views[v]|)
    }

    /** The data of the segments still to come. */
    ghost function Todo(): seq<bytes>
      reads this`views, this`v, this`off, this`left, this`seg, this`c
    {
      Emit(Rest(), left, c.mss, if seg <= c.n then c.n - seg else 0)
    }

    ghost predicate Valid()
      reads this
    {
      c.Sized() && CursorOK()
    }

    constructor ()
    {
      c, left, seg := Shape(Template([], [], 0, [], [], []), 0, 0, 0, 0), 0, 0;
      views, v, off := [], 0, 0;
    }

    /** Moves the cursor past `n` bytes, or to the end. */
    method Skip(n0: nat)
      requires CursorOK()
      modifies this`v, this`off
      ensures CursorOK() && Rest() == old(Rest())[Min(n0, |old(Rest())|)..]
    {
      var n: nat := n0;
      ghost var all, done: nat := Rest(), 0;
      assert all[0..] == all;
      while v < |views| && n > 0
        invariant CursorOK() && n + done == n0 && done <= |all| && Rest() == all[done..]
        decreases |views| - v, n
      {
        var rem := |views[v]| - off;
        ghost var k := Min(n, rem);
        MoveAlong(views, v, off, k);
        Drops(all, done, k);
        if n < rem {
          off := off + n;
          n := 0;
        } else {
          NextView(views, v);
          n := n - rem;
          v, off := v + 1, 0;
        }
        done := done + k;
      }
      if v == |views| {
        assert Rest() == [] && |all[done..]| == |all| - done;
      }
    }

    /** Past `m` bytes of the view, and to the next one at its end. */
    method MoveCursor(m: nat)
      requires CursorOK() && v < |views| && off + m <= |views[v]|
      modifies this`v, this`off
      ensures CursorOK() && m <= |old(Rest())| && Rest() == old(Rest())[m..]
      ensures v > old(v) || (v == old(v) && old(off + m < |views[v]|))
    {
      MoveAlong(views, v, off, m);
      off := off + m;
      if off >= |views[v]| {
        NextView(views, v);
        v, off := v + 1, 0;
      }
    }

    /** Reads the next `n` bytes, or as many as are left, and moves the cursor past them. */
    method Take(n: nat) returns (s: bytes)
      requires CursorOK()
      modifies this`v, this`off
      ensures CursorOK() && |s| == Min(n, |old(Rest())|) && s == old(Rest())[..|s|] && Rest() == old(Rest())[|s|..]
    {
      s := [];
      ghost var all := Rest();
      assert all[0..] == all;
      while v < |views| && |s| < n
        invariant CursorOK() && |s| <= n && s <= all && Rest() == all[|s|..]
        decreases |views| - v, n - |s|
      {
        var m := Min(n - |s|, |views[v]| - off);
        MoveAlong(views, v, off, m);
        Drops(all, |s|, m);
        s := s + views[v][off..off + m];
        MoveCursor(m);
      }
      if v == |views| {
        assert Rest() == [] && |all[|s|..]| == |all| - |s|;
      }
    }

    /**
     Prepares to split a packet whose headers are `hs` and whose views, past `skip`
     bytes, hold them and then the payload.
     */
    method Init(hs: Headers, packet: seq<bytes>, skip: nat, size: nat, m: u16)
      requires hs.Proper()
      modifies this
      ensures c == ShapeOf(hs, m, Segments(true, m, size)) && left == size && seg == 0 && CursorOK()
      ensures Rest() == Join(packet)[Min(skip + hs.Size(), |Join(packet)|)..]
      ensures Valid() <==> |hs.ip| + |hs.tcp| + m < TWO16
    {
      Start(ShapeOf(hs, m, Segments(true, m, size)), packet, skip + hs.Size(), size);
    }

    method Start(shape: Shape, packet: seq<bytes>, at: nat, size: nat)
      modifies this
      ensures c == shape && left == size && seg == 0 && CursorOK() && Rest() == Join(packet)[Min(at, |Join(packet)|)..]
    {
      c, left, seg := shape, size, 0;
      views, v, off := packet, 0, 0;
      FromStart(packet);
      Skip(at);
    }

    /** No segment is left. */
    predicate Done()
      reads this`seg, this`c
    {
      seg >= c.n
    }

    /** Frame `seg` of the packet, around the first of the data still to do, which it takes off. */
    method Next(frame: array<u8>) returns (total: nat, ghost data: bytes)
      requires Valid() && seg < c.n && c.t.Size() + c.mss <= frame.Length && frame.Length >= MIN_FRAME
      modifies this`left, this`seg, this`v, this`off, frame
      ensures Valid() && seg == old(seg) + 1 && [data] + Todo() == old(Todo())
      ensures |data| <= c.mss && MIN_FRAME <= total <= frame.Length
      ensures frame[..total] == c.Frame(old(seg), data)
    {
      var n := Min(c.mss, left);
      ghost var todo := Todo();
      EmitHead(Rest(), left, c.mss, c.n - seg);
      var s, f := SeqAt(c.seq0, c.mss, seg), FlagsAt(c.flags, seg == c.n - 1);
      var d := Advance(n);
      assert [d] + Todo() == todo;
      data := d;
      total := PutFrame(frame, c.t, n, s, f, d);
    }

    /** Takes the data of the next segment, of which `n` bytes were announced. */
    method Advance(n: nat) returns (data: bytes)
      requires Valid() && seg < c.n && n == Min(c.mss, left)
      modifies this`left, this`seg, this`v, this`off
      ensures Valid() && seg == old(seg) + 1 && |data| <= n && [data] + Todo() == old(Todo())
    {
      EmitHead(Rest(), left, c.mss, c.n - seg);
      data := Take(n);
      left := if |data| != n then 0 else left - n;
      seg := seg + 1;
    }
  }

  method PutFrame(frame: array<u8>, t: Template, n: nat, s: u32, f: u8, data: bytes) returns (total: nat)
    requires t.Sized() && |data| <= n && |t.ip| + |t.tcp| + n < TWO16 && t.Size() + n <= frame.Length
    requires frame.Length >= MIN_FRAME
    modifies frame
    ensures MIN_FRAME <= total <= frame.Length && frame[..total] == Padded(Segment(t, s, f, data))
  {
    PutSegment(frame, t, n, s, f, data);
    ghost var body := frame[..t.Size() + |data|];
    total := Pad(frame, t.Size() + |data|, body);
  }

  /** The headers of a segment, all but its checksum. */
  method StampHeaders(frame: array<u8>, t: Template, total: u16, s: u32, f: u8)
    requires t.Sized() && t.Size() <= frame.Length
    modifies frame
    ensures frame[..] == t.link + IpFrom(t.ip, t.base, total) + Stamped(t.tcp, s, f) + old(frame[..])[t.Size()..]
  {
    ghost var tail := frame[..][t.Size()..];
    Blit(frame, 0, t.link + t.ip + t.tcp);
    assert frame[..] == t.link + t.ip + t.tcp + tail;
    Lay4(t.link, t.ip, t.tcp, tail);
    SetIPLength(frame, |t.link|, t.base, total, t.link, t.ip, t.tcp + tail);
    StampTcp(frame, |t.link| + |t.ip|, s, f, t.link, IpFrom(t.ip, t.base, total), t.tcp, tail);
  }

  method StampTcp(frame: array<u8>, at: nat, s: u32, f: u8, ghost a: bytes, ghost ip: bytes, ghost tcp: bytes,
                  ghost tail: bytes)
    requires frame[..] == a + ip + (tcp + tail) && at == |a + ip| && |tcp| >= TCP_MIN
    modifies frame
    ensures frame[..] == a + ip + Stamped(tcp, s, f) + tail
  {
    Lay4(a, ip, tcp, tail);
    PutMid(frame, 4, Seq32(s), at + 4, a + ip, tcp, tail);
    PutMid(frame, 13, [f], at + 13, a + ip, Splice(tcp, 4, Seq32(s)), tail);
  }

  /** One segment announced as `n` bytes, of which `data` turned out to be there. */
  method PutSegment(frame: array<u8>, t: Template, n: nat, s: u32, f: u8, data: bytes)
    requires t.Sized() && |data| <= n && |t.ip| + |t.tcp| + n < TWO16 && t.Size() + n <= frame.Length
    modifies frame
    ensures frame[..t.Size() + |data|] == Segment(t, s, f, data)
  {
    ghost var tail := frame[..][t.Size()..];
    StampHeaders(frame, t, |t.ip| + |t.tcp| + n, s, f);
    Copied(t.link, IpFrom(t.ip, t.base, |t.ip| + |t.tcp| + n), Stamped(t.tcp, s, f), tail, data);
    Blit(frame, t.Size(), data);
    FinishSegment(frame, t, n, |data|, s, f, data, tail[|data|..]);
    assert frame[..t.Size() + |data|] == frame[..][..t.Size() + |data|];
  }

  /** Corrects the length where the payload ran out early, then computes and stores the TCP checksum. */
  method FinishSegment(frame: array<u8>, t: Template, n: nat, got: nat, s: u32, f: u8, ghost data: bytes,
                       ghost tail: bytes)
    requires t.Sized() && got == |data| <= n && |t.ip| + |t.tcp| + n < TWO16
    requires frame[..] == t.link + IpFrom(t.ip, t.base, |t.ip| + |t.tcp| + n) + (Stamped(t.tcp, s, f) + (data + tail))
    modifies frame
    ensures frame.Length >= t.Size() + got && frame[..][..t.Size() + got] == Segment(t, s, f, data)
  {
    ghost var tcp1 := Stamped(t.tcp, s, f);
    var total := |t.ip| + |t.tcp| + got;
    FinishIp(frame, t, |t.ip| + |t.tcp| + n, total, tcp1 + (data + tail));
    ghost var ip2 := IpFrom(t.ip, t.base, total);
    Lay4(t.link, ip2, tcp1, data + tail);
    FinishTcp(frame, t, got, t.link + ip2, s, f, data, tail);
    FrontOf(t.link + ip2 + TcpWith(t.tcp, s, f, t.src, t.dst, data), data, tail, frame[..]);
  }

  method FinishIp(frame: array<u8>, t: Template, before: u16, total: u16, ghost rest: bytes)
    requires t.Sized() && frame[..] == t.link + IpFrom(t.ip, t.base, before) + rest
    modifies frame
    ensures frame[..] == t.link + IpFrom(t.ip, t.base, total) + rest
  {
    if total != before {
      ghost var ip1 := IpFrom(t.ip, t.base, before);
      SetIPLength(frame, |t.link|, t.base, total, t.link, ip1, rest);
      IpAgain(t.ip, before, 0xffff - Combine(t.base, before), t.base, total, ip1);
    }
  }

  method FinishTcp(frame: array<u8>, t: Template, got: nat, ghost front: bytes, ghost s: u32, ghost f: u8,
                   ghost data: bytes, ghost tail: bytes)
    requires t.Sized() && got == |data| && |t.tcp| + got < TWO16 && |front| == |t.link| + |t.ip|
    requires frame[..] == front + Stamped(t.tcp, s, f) + (data + tail)
    modifies frame
    ensures frame[..] == front + TcpWith(t.tcp, s, f, t.src, t.dst, data) + (data + tail)
  {
    var at := |t.link| + |t.ip|;
    ghost var tcp1, blank := Stamped(t.tcp, s, f), TcpBlank(t.tcp, s, f);
    PutMid(frame, 16, ToBE16(0), at + 16, front, tcp1, data + tail);
    SegmentIn(front, blank, data, tail, frame[..]);
    var seg := frame[at..at + |t.tcp| + got];
    assert seg == frame[..][at..at + |t.tcp| + got];
    StoreSum(frame, at, 0xffff - Csum(seg, Pseudo(TCP, t.src, t.dst, |t.tcp| + got)), front, blank, data + tail);
  }

  method StoreSum(frame: array<u8>, at: nat, sum: u16, ghost front: bytes, ghost blank: bytes, ghost rest: bytes)
    requires frame[..] == front + blank + rest && at == |front| && |blank| >= TCP_MIN
    modifies frame
    ensures frame[..] == front + Set16(blank, 16, sum) + rest
  {
    PutMid(frame, 16, ToBE16(sum), at + 16, front, blank, rest);
  }

  lemma {:induction false} SegmentIn(front: bytes, blank: bytes, data: bytes, tail: bytes, all: bytes)
    requires all == front + blank + (data + tail)
    ensures all[|front|..|front| + |blank| + |data|] == blank + data
  {
  }

  lemma {:induction false} FrontOf(hdrs: bytes, data: bytes, tail: bytes, all: bytes)
    requires all == hdrs + (data + tail)
    ensures all[..|hdrs| + |data|] == hdrs + data
  {
  }

  lemma {:induction false} Copied(a: bytes, b: bytes, c: bytes, tail: bytes, data: bytes)
    requires |data| <= |tail|
    ensures Splice(a + b + c + tail, |a| + |b| + |c|, data) == a + b + (c + (data + tail[|data|..]))
  {
  }

  /** Zeros after the body, up to the length a frame must have. */
  method Pad(frame: array<u8>, n: nat, ghost body: bytes) returns (total: nat)
    requires n <= frame.Length && MIN_FRAME <= frame.Length && body == frame[..n]
    modifies frame
    ensures MIN_FRAME <= total <= frame.Length && frame[..total] == Padded(body) && total == |Padded(body)|
    ensures frame[..] == Padded(body) + old(frame[..])[total..]
  {
    total := n;
    assert frame[..] == frame[..n] + frame[..][n..];
    if n < MIN_FRAME {
      ghost var was := frame[..];
      var zeros := seq(MIN_FRAME - n, _ => 0);
      Blit(frame, n, zeros);
      total := MIN_FRAME;
      assert frame[..total] == was[..n] + zeros;
      assert was[..n] == body;
      assert frame[..] == (was[..n] + zeros) + was[total..];
    }
  }

  /** A TCP header with its own number and flags. */
  function Stamped(tcp: bytes, seq0: u32, flags: u8): (r: bytes)
    requires |tcp| >= TCP_MIN
    ensures |r| == |tcp|
  {
    Splice(Splice(tcp, 4, Seq32(seq0)), 13, [flags])
  }

  lemma {:induction false} Lay4(a: bytes, b: bytes, c: bytes, d: bytes)
    ensures (a + b + c) + d == a + b + (c + d) == (a + b) + c + d
  {
  }

  lemma {:induction false} EmitHead(rest: bytes, left: nat, mss: nat, n: nat)
    requires n > 0
    ensures var got := Min(Min(mss, left), |rest|);
            && Emit(rest, left, mss, n)[0] == rest[..got]
            && Emit(rest, left, mss, n)[1..] == Emit(rest[got..], if got
               == Min(mss, left) then left - got else 0, mss, n - 1)
  {
  }

  lemma {:induction false} FromStart(views: seq<bytes>)
    ensures RestOf(views, 0, 0) == Join(views)
  {
    if views != [] {
      assert views[0][0..] == views[0];
    }
  }

  /** What the frames of a packet with headers `h` have in common, cut into `n` pieces of `mss`. */
  function ShapeOf(h: Headers, mss: nat, n: nat): Shape
    requires h.Proper()
  {
    Shape(TemplateOf(h), Get32(h.tcp, 4), h.tcp[13], mss, n)
  }

  function Get32(b: bytes, at: nat): u32
    requires at + 4 <= |b|
  {
    var hi: int, lo: int := BE16(b, at), BE16(b, at + 2);
    hi * 0x10000 + lo
  }
}
