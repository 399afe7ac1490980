/**
 The stack's transmit side: packets become frames, built one at a time into the
 device's memory, and the device takes any prefix of them.
 */
module NetTx {
  import opened Words
  import opened Bytes
  import opened Checksum
  import opened Inet
  import opened Gso
  import opened Tpacket
  import opened Segmenter

  /**
   A packet as the stack hands it over: its views begin with `skip` unused bytes,
   then its headers, then its data. `csum`: an IPv4 TCP packet whose TCP checksum was
   left unfinished.
   */
  datatype Packet = Packet(views: seq<bytes>, skip: nat, hs: Headers, size: nat, gso: bool, mss: u16, csum: bool) {
    function Frames(): nat { Segments(gso, mss, size) }

    function All(): bytes { Join(views) }

    /** All of it, past the unused bytes. */
    function Body(): bytes { From(All(), skip) }

    /** What its frames have in common, where it is split. */
    ghost function Common(): Shape
      requires hs.Proper()
    {
      ShapeOf(hs, mss, Frames())
    }

    /** The payload, past the headers. */
    ghost function Payload(): bytes {
      if skip + hs.Size() <= |All()| then All()[skip + hs.Size()..] else []
    }
  }

  /** What is left of `b` past `skip` bytes. */
  function From(b: bytes, skip: nat): bytes {
    if skip <= |b| then b[skip..] else []
  }

  // ------------------------------------------------------- one whole packet

  /** The checksum of a TCP segment whose own field is zero. */
  function TcpField(seg: bytes, src: bytes, dst: bytes): u16
    requires |seg| < TWO16
  {
    0xffff - Csum(seg, Pseudo(TCP, src, dst, |seg|))
  }

  function Store(b: bytes, at: nat, v: u16): (r: bytes)
    requires at + 2 <= |b|
    ensures |r| == |b|
  {
    Set16(Set16(b, at, 0), at, v)
  }

  /** The bytes with the checksum of the TCP segment at `lo..hi` in its place. */
  function WithSum(b: bytes, lo: nat, hi: nat, src: bytes, dst: bytes): (r: bytes)
    requires lo + TCP_MIN <= hi <= |b| && hi - lo < TWO16
    ensures |r| == |b|
  {
    Store(b, lo + 16, TcpField(Set16(b, lo + 16, 0)[lo..hi], src, dst))
  }

  /** `b` with the TCP checksum its own IPv4 lengths ask for, unless they leave no room for a TCP header. */
  function Finished(b: bytes, linkLen: nat): (r: bytes)
    requires linkLen + IP_MIN <= |b|
    ensures |r| == |b|
  {
    var ipLen, total := HeaderLen(b[linkLen..]), BE16(b, linkLen + 2);
    if total - ipLen < TCP_MIN || linkLen + total > |b| then b
    else WithSum(b, linkLen + ipLen, linkLen + total, b[linkLen + 12..linkLen + 16], b[linkLen + 16..linkLen + 20])
  }

  /** The one frame of a packet that is not split. */
  function Single(p: Packet, linkLen: nat): bytes {
    Padded(if p.csum && linkLen + IP_MIN <= |p.Body()| then Finished(p.Body(), linkLen) else p.Body())
  }

  /**
   The frame buffer `was` after a packet was put in it, whatever the packet: as much of it as
   goes in, padded, and the checksum it asks for, over whatever lies where its lengths say.
   */
  function WholeFrame(p: Packet, linkLen: nat, was: bytes): (r: bytes)
    requires |was| >= MIN_FRAME
    ensures |r| == |was|
  {
    var f := Padded(p.Body()[..Min(|p.Body()|, |was|)]);
    var all := f + was[|f|..];
    if p.csum && linkLen + IP_MIN <= |was| then Finished(all, linkLen) else all
  }

  /** A link whose headers take `len` bytes and whose frames hold up to `room`. */
  datatype Link = Link(len: nat, room: nat) {
    /** What the stack owes the endpoint: packets that fit, and honest lengths. */
    ghost predicate Takes(p: Packet) {
      if p.Frames() == 1 then
        && p.skip <= |p.All()| && |p.Body()| <= room
        && (p.csum ==> len + IP_MIN <= |p.Body()| && len + BE16(p.Body(), len + 2) <= |p.Body()|)
      else
        && p.hs.Proper() && |p.hs.link| == len && p.Common().Sized()
        && p.hs.Size() + p.mss <= room && p.skip + p.hs.Size() <= |p.All()|
    }

    /** What the builder cannot do without: frames that hold an IPv4 header, and segments that fit them. */
    ghost predicate Builds(p: Packet) {
      if p.Frames() == 1 then p.csum ==> len + IP_MIN <= room
      else
        && p.hs.Proper() && |p.hs.link| == len && p.Common().Sized()
        && p.hs.Size() + p.mss <= room && p.skip + p.hs.Size() <= |p.All()|
    }

    /** All the frames a packet becomes, in order. */
    ghost function Frames(p: Packet): (fs: seq<bytes>)
      ensures |fs| == p.Frames()
    {
      if p.Frames() == 1 then [Single(p, len)]
      else if p.hs.Proper() then SegFrames(p.Common(), 0, Emit(p.Payload(), p.size, p.mss, p.Frames()))
      else seq(p.Frames(), _ => [])
    }
  }

  /** The frames that carry `ds`, the first of them number `k`. */
  ghost function SegFrames(c: Shape, k: nat, ds: seq<bytes>): (fs: seq<bytes>)
    ensures |fs| == |ds|
    decreases ds
  {
    if ds == [] then [] else [c.Frame(k, ds[0])] + SegFrames(c, k + 1, ds[1..])
  }

  /** The frames of a list of packets, in order. */
  ghost function AllFrames(link: Link, ps: seq<Packet>): seq<bytes> {
    if ps == [] then [] else link.Frames(ps[0]) + AllFrames(link, ps[1..])
  }

  /** Writes a packet, headers and all, past the unused bytes its views begin with: as much of it as the frame holds. */
  method CopyViews(frame: array<u8>, views: seq<bytes>, skip: nat) returns (n: nat)
    modifies frame
    ensures var b := From(Join(views), skip);
            n == Min(|b|, frame.Length) && frame[..] == b[..n] + old(frame[..])[n..]
  {
    n := 0;
    var off := skip;
    ghost var done: bytes, was := [], frame[..];
    for v := 0 to |views|
      invariant Join(views) == done + Join(views[v..]) && off == (if skip > |done| then skip - |done| else 0)
      invariant n == Min(|From(done, skip)|, frame.Length) && frame[..] == From(done, skip)[..n] + was[n..]
    {
      var s := views[v];
      assert views[v..][0] == s && views[v..][1..] == views[v + 1..];
      ghost var done1 := done + s;
      assert Join(views) == done1 + Join(views[v + 1..]);
      FromMore(done, s, skip);
      if off >= |s| {
        off := off - |s|;
      } else {
        n := CopySome(frame, n, s[off..], From(done, skip), was);
        off := 0;
      }
      done := done1;
    }
    assert views[|views|..] == [];
  }

  lemma {:induction false} FromMore(b: bytes, s: bytes, skip: nat)
    ensures var off := if skip > |b| then skip - |b| else 0;
            From(b + s, skip) == From(b, skip) + (if off >= |s| then [] else s[off..])
  {
  }

  /** Copies what goes in of `s` behind the `n` bytes that are there. */
  method CopySome(frame: array<u8>, n: nat, s: bytes, ghost b: bytes, ghost was: bytes) returns (n1: nat)
    requires |was| == frame.Length && n == Min(|b|, frame.Length) && frame[..] == b[..n] + was[n..]
    modifies frame
    ensures n1 == Min(|b + s|, frame.Length) && frame[..] == (b + s)[..n1] + was[n1..]
  {
    var c := Min(|s|, frame.Length - n);
    Blit(frame, n, s[..c]);
    n1 := n + c;
    assert (b + s)[..n1] == b[..n] + s[..c];
  }

  /** Completes the TCP checksum of the packet in the frame, in place. */
  method FinishTCPChecksum(frame: array<u8>, linkLen: nat)
    requires linkLen + IP_MIN <= frame.Length
    modifies frame
    ensures frame[..] == Finished(old(frame[..]), linkLen)
  {
    hide WithSum;
    ghost var b := frame[..];
    var ipLen, total := HeaderLen(frame[linkLen..]), BE16(frame[..], linkLen + 2);
    assert frame[linkLen..] == b[linkLen..];
    if total - ipLen < TCP_MIN || linkLen + total > frame.Length {
      return;
    }
    var src, dst := frame[linkLen + 12..linkLen + 16], frame[linkLen + 16..linkLen + 20];
    assert src == b[linkLen + 12..linkLen + 16] && dst == b[linkLen + 16..linkLen + 20];
    StoreTcpSum(frame, linkLen + ipLen, linkLen + total, src, dst);
  }

  method StoreTcpSum(frame: array<u8>, lo: nat, hi: nat, src: bytes, dst: bytes)
    requires lo + TCP_MIN <= hi <= frame.Length && hi - lo < TWO16
    modifies frame
    ensures frame[..] == WithSum(old(frame[..]), lo, hi, src, dst)
  {
    Put16(frame, lo + 16, 0);
    var seg := frame[lo..hi];
    assert seg == frame[..][lo..hi];
    Put16(frame, lo + 16, TcpField(seg, src, dst));
  }

  method Put16(frame: array<u8>, at: nat, v: u16)
    requires at + 2 <= frame.Length
    modifies frame
    ensures frame[..] == Set16(old(frame[..]), at, v)
  {
    Blit(frame, at, ToBE16(v));
  }

  lemma {:induction false} SetPrefix(b: bytes, c: bytes, at: nat, v: u16)
    requires at + 2 <= |b|
    ensures Set16(b + c, at, v) == Set16(b, at, v) + c
  {
  }

  /** What follows the packet neither matters nor changes. */
  lemma {:induction false} SumPrefix(b: bytes, c: bytes, lo: nat, hi: nat, src: bytes, dst: bytes)
    requires lo + TCP_MIN <= hi <= |b| && hi - lo < TWO16
    ensures WithSum(b + c, lo, hi, src, dst) == WithSum(b, lo, hi, src, dst) + c
  {
    BlankPrefix(b, c, lo, hi);
    StorePrefix(b, c, lo + 16, TcpField(Set16(b, lo + 16, 0)[lo..hi], src, dst));
  }

  lemma {:induction false} BlankPrefix(b: bytes, c: bytes, lo: nat, hi: nat)
    requires lo + TCP_MIN <= hi <= |b|
    ensures Set16(b + c, lo + 16, 0)[lo..hi] == Set16(b, lo + 16, 0)[lo..hi]
  {
    SetPrefix(b, c, lo + 16, 0);
    SlicePrefix(Set16(b, lo + 16, 0), c, Set16(b + c, lo + 16, 0), lo, hi);
  }

  lemma {:induction false} SlicePrefix(x: bytes, c: bytes, y: bytes, lo: nat, hi: nat)
    requires y == x + c && lo <= hi <= |x|
    ensures y[lo..hi] == x[lo..hi]
  {
  }

  lemma {:induction false} StorePrefix(b: bytes, c: bytes, at: nat, v: u16)
    requires at + 2 <= |b|
    ensures Store(b + c, at, v) == Store(b, at, v) + c
  {
    SetPrefix(b, c, at, 0);
    SetPrefix(Set16(b, at, 0), c, at, v);
  }

  lemma {:induction false} FinishedPrefix(b: bytes, c: bytes, linkLen: nat)
    requires linkLen + IP_MIN <= |b| && linkLen + BE16(b, linkLen + 2) <= |b|
    ensures Finished(b + c, linkLen) == Finished(b, linkLen) + c
  {
    hide WithSum, BE16;
    var ipLen, total := HeaderLen(b[linkLen..]), BE16(b, linkLen + 2);
    SameHeader(b, c, linkLen);
    if total - ipLen >= TCP_MIN {
      SumPrefix(b, c, linkLen + ipLen, linkLen + total, b[linkLen + 12..linkLen + 16], b[linkLen + 16..linkLen + 20]);
    }
  }

  lemma {:induction false} SameHeader(b: bytes, c: bytes, linkLen: nat)
    requires linkLen + IP_MIN <= |b|
    ensures HeaderLen((b + c)[linkLen..]) == HeaderLen(b[linkLen..]) && BE16(b + c, linkLen + 2) == BE16(b, linkLen + 2)
    ensures (b + c)[linkLen + 12..linkLen + 16] == b[linkLen + 12..linkLen + 16]
    ensures (b + c)[linkLen + 16..linkLen + 20] == b[linkLen + 16..linkLen + 20]
  {
  }

  /** The whole of a packet that is not split, in one frame; a packet that keeps its promises comes out complete. */
  method BuildSingle(frame: array<u8>, p: Packet, linkLen: nat) returns (len: nat)
    requires frame.Length >= MIN_FRAME && (p.csum ==> linkLen + IP_MIN <= frame.Length)
    modifies frame
    ensures len == |Padded(p.Body()[..Min(|p.Body()|, frame.Length)])| && MIN_FRAME <= len <= frame.Length
    ensures frame[..] == WholeFrame(p, linkLen, old(frame[..]))
    ensures p.Frames() == 1 && Link(linkLen, frame.Length).Takes(p) ==> frame[..len] == Single(p, linkLen)
  {
    hide Finished, Single, Packet.Frames, Link.Takes;
    ghost var was := frame[..];
    var n := CopyViews(frame, p.views, p.skip);
    ghost var b := p.Body()[..n];
    assert frame[..n] == b;
    ghost var copied := frame[..];
    len := Pad(frame, n, b);
    SameTail(b, was, copied, n, len);
    if p.csum {
      FinishTCPChecksum(frame, linkLen);
    }
    if p.Frames() == 1 && Link(linkLen, frame.Length).Takes(p) {
      TakenWhole(p, linkLen, was);
      assert frame[..len] == frame[..][..len];
    }
  }

  lemma {:induction false} SameTail(b: bytes, was: bytes, now: bytes, n: nat, len: nat)
    requires n == |b| <= len <= |was| && now == b + was[n..]
    ensures now[len..] == was[len..]
  {
  }

  /** Nothing that was in the buffer before shows in the frame of such a packet. */
  lemma {:induction false} TakenWhole(p: Packet, linkLen: nat, was: bytes)
    requires |was| >= MIN_FRAME && p.Frames() == 1 && Link(linkLen, |was|).Takes(p)
    ensures var len := |Padded(p.Body())|; len <= |was| && WholeFrame(p, linkLen, was)[..len] == Single(p, linkLen)
    ensures p.Body()[..Min(|p.Body()|, |was|)] == p.Body()
  {
    hide Finished;
    var b := p.Body();
    assert b[..|b|] == b;
    PaddedIs(b);
    var pad, tail := Zeros(|b|), was[|Padded(b)|..];
    assert Padded(b) + tail == b + (pad + tail);
    if p.csum {
      FinishedPrefix(b, pad + tail, linkLen);
      PaddedTail(Finished(b, linkLen), tail, WholeFrame(p, linkLen, was), |Padded(b)|);
    }
  }

  lemma {:induction false} PaddedTail(b: bytes, tail: bytes, all: bytes, len: nat)
    requires all == b + (Zeros(|b|) + tail) && len == |b| + |Zeros(|b|)|
    ensures all[..len] == Padded(b)
  {
    PaddedIs(b);
  }

  ghost function Zeros(n: nat): bytes {
    if n < MIN_FRAME then seq(MIN_FRAME - n, _ => 0) else []
  }

  lemma {:induction false} PaddedIs(b: bytes)
    ensures Padded(b) == b + Zeros(|b|)
  {
  }

  // ------------------------------------------------------------- the builder

  /** Every packet of the list is one the link takes. */
  ghost predicate AllTaken(link: Link, ps: seq<Packet>) {
    forall i {:trigger ps[i]} :: 0 <= i < |ps| ==> link.Takes(ps[i])
  }

  /** A packet the link takes is one the builder can do. */
  lemma {:induction false} TakenBuilt(link: Link, ps: seq<Packet>)
    requires AllTaken(link, ps) && link.room >= MIN_FRAME
    ensures AllBuilt(link, ps)
  {
  }

  ghost predicate AllBuilt(link: Link, ps: seq<Packet>) {
    forall i {:trigger ps[i]} :: 0 <= i < |ps| ==> link.Builds(ps[i])
  }

  /** `ns` counts what each of the packets becomes. */
  ghost predicate Counts(ps: seq<Packet>, ns: seq<nat>) {
    |ns| == |ps| && forall i {:trigger ns[i]} :: 0 <= i < |ps| ==> ns[i] == ps[i].Frames()
  }

  /** The builder of one batch: it is asked for frames in order and knows whose turn it is. */
  class Copier {
    const link: Link
    const s: Splitter

    var pkts: seq<Packet>
    var segs: seq<nat>
    var p: nat
    var frame: nat
    var gso: bool

    constructor (link: Link)
      requires link.room >= MIN_FRAME
      ensures Valid() && fresh(s) && pkts == [] && this.link == link
    {
      this.link := link;
      pkts, segs, p, frame, gso := [], [], 0, 0, false;
      s := new Splitter();
    }

    /** The packets fit, and their frames are counted. */
    ghost predicate Batch()
      reads this`pkts, this`segs
    {
      link.room >= MIN_FRAME && AllBuilt(link, pkts) && Counts(pkts, segs)
    }

    /** The splitter is set to packet `p`. */
    ghost predicate Splitting()
      reads this`segs, this`p, s
    {
      && p < |segs| && segs[p] != 1 && s.c.Sized() && s.c.t.Size() + s.c.mss <= link.room
      && s.CursorOK() && s.seg < s.c.n
    }

    ghost predicate Valid()
      reads this, s
    {
      Batch() && p <= |pkts| && (gso ==> Splitting())
    }

    /** The frames still to be built. */
    ghost function Left(): seq<bytes>
      reads this`pkts, this`p, this`gso, s
    {
      if gso then SplitLeft() + From(p + 1) else From(p)
    }

    /** The frames of the packets from the `k`th. */
    ghost function From(k: nat): seq<bytes>
      reads this`pkts
    {
      if k <= |pkts| then AllFrames(link, pkts[k..]) else []
    }

    /** What is left of the packet being split. */
    ghost function SplitLeft(): seq<bytes>
      reads s
    {
      SegFrames(s.c, s.seg, s.Todo())
    }

    /** While frames are left there is a packet whose turn it is. */
    lemma {:induction false} SomeoneIsNext()
      requires Valid() && Left() != []
      ensures p < |pkts|
    {
      hide Link.Takes, Link.Builds, Link.Frames, Packet.Frames;
    }

    /** Takes up a batch. */
    method Begin(ps: seq<Packet>, ns: seq<nat>)
      requires link.room >= MIN_FRAME && AllBuilt(link, ps) && Counts(ps, ns)
      modifies this
      ensures Valid() && pkts == ps && frame == 0 && Left() == AllFrames(link, ps)
    {
      pkts, segs, p, gso, frame := ps, ns, 0, false, 0;
      assert ps[0..] == ps;
    }

    /** `buf` holds the first of the frames that were left, which is left no more. */
    ghost predicate Built(was: seq<bytes>, now: seq<bytes>, k: Packet, whole: bool, before: bytes, buf: bytes,
                          len: nat) {
      && 0 < len <= |buf| && was != [] && now == was[1..]
      && (link.Takes(k) ==> buf[..len] == was[0])
      && (whole ==> |before| >= MIN_FRAME && buf == WholeFrame(k, link.len, before))
    }

    /**
     Asked out of turn it builds nothing; in turn, `buf` gets the first of the frames left,
     which is then left no more. A packet that goes into one frame is put there whatever it is.
     */
    method Build(i: nat, buf: array<u8>) returns (len: nat)
      requires Valid() && buf.Length == link.room && (i == frame ==> p < |pkts|)
      modifies this`p, this`frame, this`gso, s, buf
      ensures Valid()
      ensures i != old(frame) ==> len == 0 && frame == old(frame) && Left() == old(Left())
      ensures i == old(frame) ==>
                && frame == i + 1
                && Built(old(Left()), Left(), pkts[old(p)], segs[old(p)] == 1, old(buf[..]), buf[..], len)
    {
      hide Link.Takes, Link.Builds, Link.Frames, Packet.Frames, Shape.Frame, WholeFrame;
      if i != frame {
        return 0;
      }
      frame := frame + 1;
      if segs[p] == 1 {
        len := BuildWhole(buf);
      } else {
        len := BuildNext(buf);
        assert buf[..][..len] == buf[..len];
      }
    }

    method BuildWhole(buf: array<u8>) returns (len: nat)
      requires Valid() && buf.Length == link.room && p < |pkts| && segs[p] == 1 && !gso
      modifies this`p, buf
      ensures Valid() && Built(old(Left()), Left(), pkts[old(p)], true, old(buf[..]), buf[..], len)
    {
      hide Link.Takes, Link.Builds, Link.Frames, Packet.Frames, WholeFrame;
      NextPacket();
      len := PutWhole(buf, pkts[p]);
      p := p + 1;
    }

    method PutWhole(buf: array<u8>, k: Packet) returns (len: nat)
      requires buf.Length == link.room >= MIN_FRAME && link.Builds(k) && k.Frames() == 1
      modifies buf
      ensures 0 < len <= buf.Length && |link.Frames(k)| == 1 && buf[..] == WholeFrame(k, link.len, old(buf[..]))
      ensures link.Takes(k) ==> link.Frames(k) == [buf[..][..len]]
    {
      hide WholeFrame, Single;
      len := BuildSingle(buf, k, link.len);
      assert buf[..][..len] == buf[..len];
    }

    lemma {:induction false} NextPacket()
      requires p < |pkts|
      ensures From(p) == link.Frames(pkts[p]) + From(p + 1)
    {
      assert pkts[p..][0] == pkts[p] && pkts[p..][1..] == pkts[p + 1..];
    }

    method BuildNext(buf: array<u8>) returns (len: nat)
      requires Valid() && buf.Length == link.room && p < |pkts| && segs[p] != 1
      modifies this`p, this`gso, s, buf
      ensures Valid() && 0 < len <= buf.Length && old(Left()) == [buf[..len]] + Left()
    {
      hide Link.Takes, Link.Builds, Link.Frames, Packet.Frames, Shape.Frame;
      if !gso {
        Ready();
      }
      len := Onward(buf);
    }

    method Ready()
      requires Valid() && p < |pkts| && segs[p] != 1 && !gso
      modifies this`gso, s
      ensures Valid() && gso && Left() == old(Left())
    {
      hide Link.Takes, Link.Builds, Link.Frames, Packet.Frames, Shape.Frame;
      NextPacket();
      Prepare(pkts[p]);
      gso := true;
    }

    method Onward(buf: array<u8>) returns (len: nat)
      requires Valid() && buf.Length == link.room && gso
      modifies this`p, this`gso, s`left, s`seg, s`v, s`off, buf
      ensures Valid() && 0 < len <= buf.Length && old(Left()) == [buf[..len]] + Left()
    {
      hide Link.Takes, Link.Builds, Link.Frames, Packet.Frames, SegFrames, AllFrames, Splitter.Todo;
      ghost var rest := From(p + 1);
      len := Step(buf, rest);
      if s.Done() {
        gso := false;
        p := p + 1;
        assert [] + rest == rest;
      }
    }

    /** Sets the splitter to the packet whose turn it is. */
    method Prepare(k: Packet)
      requires p < |segs| && segs[p] != 1 && link.Builds(k) && k.Frames() == segs[p]
      modifies s
      ensures Splitting() && link.Frames(k) == SplitLeft()
    {
      s.Init(k.hs, k.views, k.skip, k.size, k.mss);
      assert s.Todo() == Emit(k.Payload(), k.size, k.mss, k.Frames());
    }

    /** One segment. */
    method Step(buf: array<u8>, ghost rest: seq<bytes>) returns (len: nat)
      requires Splitting() && buf.Length == link.room >= MIN_FRAME
      modifies s`left, s`seg, s`v, s`off, buf
      ensures s.seg <= s.c.n && (s.seg < s.c.n ==> Splitting()) && (s.seg == s.c.n ==> SplitLeft() == [])
      ensures 0 < len <= buf.Length && old(SplitLeft()) + rest == [buf[..len]] + (SplitLeft() + rest)
    {
      hide Shape.Frame;
      ghost var data;
      ghost var before := SplitLeft();
      len, data := s.Next(buf);
      SegStep(s.c, s.seg - 1, data, s.Todo());
      ghost var after, f := SplitLeft(), buf[..len];
      assert before == [f] + after;
      TakeOne(before, rest, f, after);
    }
  }

  lemma {:induction false} TakeOne<T>(before: seq<T>, rest: seq<T>, f: T, after: seq<T>)
    requires before == [f] + after
    ensures before + rest == [f] + (after + rest)
  {
  }

  lemma {:induction false} SegStep(c: Shape, k: nat, d: bytes, ds: seq<bytes>)
    ensures SegFrames(c, k, [d] + ds) == [c.Frame(k, d)] + SegFrames(c, k + 1, ds)
  {
    hide Shape.Frame;
    assert ([d] + ds)[1..] == ds;
  }
}
