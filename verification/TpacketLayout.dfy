/**
 The kernel's side of a TPACKET_V3 block: how packets lie in it, byte by byte, as the
 kernel's own headers (linux/if_packet.h) lay them out, and that the reader finds just
 those packets there.
 */
module TpacketLayout {
  import opened Words
  import opened Bytes
  import opened Offloads
  import opened Tpacket

  /** Little-endian fields, from their bytes. */
  function Word(b: bytes, at: nat): nat
    requires at + 2 <= |b|
  {
    var x: int, y: int := b[at], b[at + 1];
    x + 256 * y
  }

  function Long(b: bytes, at: nat): nat
    requires at + 4 <= |b|
  {
    Word(b, at) + 65536 * Word(b, at + 2)
  }

  /**
   A packet as it was on the wire. `stripped`: the tag at bytes 12 to 16 was taken out of the bytes
   and kept in the header. `snap`: how many of the remaining bytes were kept. `meta`: the
   checksum and segmentation work left to do, with offsets into the packet on the wire.
   */
  datatype Sent = Sent(wire: bytes, stripped: bool, snap: nat, sec: u32, nsec: u32, meta: Offload) {
    predicate Valid() { (stripped ==> |wire| >= 16 && snap >= 12) && snap <= |Kept()| }

    /** The packet without its tag. */
    function Kept(): bytes {
      if stripped && |wire| >= 16 then wire[..12] + wire[16..] else wire
    }

    /** All of it is there. */
    predicate Whole() { snap == |Kept()| }
  }

  /** The virtio header in front of a packet whose tag was taken out counts from the bytes that are left. */
  predicate Recorded(stored: Offload, p: Sent) {
    if !p.stripped then stored == p.meta
    else
      && stored.flags == p.meta.flags && stored.gsoType == p.meta.gsoType
      && stored.gsoSize == p.meta.gsoSize && stored.csumOff == p.meta.csumOff
      && p.meta.csumStart == (if p.meta.flags % 2 == 1 then stored.csumStart + 4 else stored.csumStart)
      && p.meta.hdrLen == (if stored.hdrLen != 0 then stored.hdrLen + 4 else 0)
  }

  /** A frame at `off`: its header fields at their places, its bytes `mac` past it, `next` to the frame after it. */
  ghost predicate FrameHolds(blk: bytes, vnet: bool, off: nat, p: Sent, next: nat) {
    && p.Valid() && off + 48 <= |blk| && |blk| < TWO32
    && Long(blk, off) == next && Long(blk, off + 4) == p.sec && Long(blk, off + 8) == p.nsec
    && Long(blk, off + 12) == p.snap && Long(blk, off + 16) == |p.Kept()|
    && (blk[off + 20] / 16 % 2 == 1 <==> p.stripped)
    && (p.stripped ==> TagHolds(blk, off, p.wire))
    && var at := off + Word(blk, off + 24);
       && at + p.snap <= |blk| && blk[at..at + p.snap] == p.Kept()[..p.snap]
       && (vnet ==> Word(blk, off + 24) >= 10 && exists o :: IsHeader(blk[at - 10..at], o) && Recorded(o, p))
  }

  /** The tag in the header: its control bytes, and its identifier, or zero for the usual one. */
  predicate TagHolds(blk: bytes, off: nat, wire: bytes)
    requires off + 48 <= |blk| && |wire| >= 16
  {
    && Word(blk, off + 32) == BE16(wire, 14)
    && (Word(blk, off + 36) == BE16(wire, 12) || (Word(blk, off + 36) == 0 && BE16(wire, 12) == 0x8100))
    && BE16(wire, 12) != 0
  }

  /** Packets one after the other from `off` on: each frame says how far the next one is. */
  ghost predicate FramesHold(blk: bytes, vnet: bool, off: nat, ps: seq<Sent>)
    decreases |ps|
  {
    ps == [] ||
    exists next :: FrameHolds(blk, vnet, off, ps[0], next) &&
      (|ps| > 1 ==> next > 0 && FramesHold(blk, vnet, off + next, ps[1..]))
  }

  /** A block the kernel has handed over with these packets in it. */
  ghost predicate BlockHolds(blk: bytes, vnet: bool, ps: seq<Sent>) {
    && 48 <= |blk| < TWO32 && blk[8] % 2 == 1 && Long(blk, 12) == |ps|
    && FramesHold(blk, vnet, Long(blk, 16), ps)
  }

  /** What the reader should make of a packet. */
  function ItemOf(vnet: bool, p: Sent): Item
    requires p.Valid()
  {
    Packet(!p.Whole(), p.wire[..if p.stripped then p.snap + 4 else p.snap], if vnet then p.meta else NONE,
           p.sec * 1_000_000_000 + p.nsec)
  }

  ghost predicate AllValid(ps: seq<Sent>) { forall i {:trigger ps[i]} :: 0 <= i < |ps| ==> ps[i].Valid() }

  function ItemsOf(vnet: bool, ps: seq<Sent>): (items: seq<Item>)
    requires AllValid(ps)
    ensures |items| == |ps|
  {
    if ps == [] then [] else [ItemOf(vnet, ps[0])] + ItemsOf(vnet, ps[1..])
  }

  // ----------------------------------------------------------------- proofs

  lemma {:induction false} WordIs(b: bytes, at: nat)
    requires at + 2 <= |b|
    ensures U16(b, at) == Word(b, at)
  {
    var s := b[at..at + 2];
    assert s[1..][1..] == [];
    assert FromLE(s) == s[0] + 256 * FromLE(s[1..]) && FromLE(s[1..]) == s[1] + 256 * FromLE([]);
  }

  lemma {:induction false} LongIs(b: bytes, at: nat)
    requires at + 4 <= |b|
    ensures U32(b, at) == Long(b, at)
  {
    var s := b[at..at + 4];
    assert s[1..][1..] == s[2..] && s[2..][1..] == s[3..] && s[3..][1..] == [];
    assert FromLE(s) == s[0] + 256 * FromLE(s[1..]) && FromLE(s[1..]) == s[1] + 256 * FromLE(s[2..]);
    assert FromLE(s[2..]) == s[2] + 256 * FromLE(s[3..]) && FromLE(s[3..]) == s[3] + 256 * FromLE([]);
  }

  lemma {:induction false} HdrIs(blk: bytes, off: nat)
    requires off + 48 <= |blk|
    ensures var h := ReadHdr(blk, off);
            && h.next == Long(blk, off) && h.sec == Long(blk, off + 4) && h.nsec == Long(blk, off + 8)
            && h.snaplen == Long(blk, off + 12) && h.len == Long(blk, off + 16) && h.status == Long(blk, off + 20)
            && h.mac == Word(blk, off + 24) && h.tci == Long(blk, off + 32) && h.tpid == Word(blk, off + 36)
  {
    hide U32, U16, Long, Word;
    LongIs(blk, off);
    LongIs(blk, off + 4);
    LongIs(blk, off + 8);
    LongIs(blk, off + 12);
    LongIs(blk, off + 16);
    LongIs(blk, off + 20);
    WordIs(blk, off + 24);
    LongIs(blk, off + 32);
    WordIs(blk, off + 36);
  }

  /** The flag that says a tag was taken out is in the first byte of the status. */
  lemma {:induction false} FourthBit(w: nat, x: u8, z: nat)
    requires w == x + 256 * z
    ensures Bit(w, 4) <==> x / 16 % 2 == 1
    ensures Bit(w, 0) <==> x % 2 == 1
  {
    var a, b, c := w / 2, w / 2 / 2, w / 2 / 2 / 2;
    assert a == x / 2 + 128 * z && b == x / 4 + 64 * z && c == x / 8 + 32 * z && c / 2 == x / 16 + 16 * z;
    assert Bit(w, 4) == Bit(a, 3) == Bit(b, 2) == Bit(c, 1) == Bit(c / 2, 0);
  }

  lemma {:induction false} StatusIs(b: bytes, at: nat)
    requires at + 4 <= |b|
    ensures Bit(U32(b, at), 4) <==> b[at] / 16 % 2 == 1
    ensures Bit(U32(b, at), 0) <==> b[at] % 2 == 1
  {
    hide Bit;
    LongIs(b, at);
    var y: int, rest: nat := b[at + 1], Word(b, at + 2);
    FourthBit(U32(b, at), b[at], y + 256 * rest);
  }

  lemma {:induction false} HeaderIs(s: bytes, o: Offload)
    requires IsHeader(s, o)
    ensures Unmarshal(s) == o
  {
    HeaderIff(s, o);
  }

  lemma {:induction false} ShiftedIs(o: Offload, p: Sent)
    requires Recorded(o, p)
    ensures Shifted(o, if p.stripped then 4 else 0) == p.meta
  {
  }

  lemma {:induction false} TagIs(blk: bytes, off: nat, h: Hdr, wire: bytes)
    requires off + 48 <= |blk| && |wire| >= 16 && TagHolds(blk, off, wire)
    requires h.tci == Long(blk, off + 32) && h.tpid == Word(blk, off + 36)
    ensures Tag(h) == wire[12..16]
  {
    assert h.tci % 0x10000 == BE16(wire, 14);
    var hi, lo := BE16(wire, 12), BE16(wire, 14);
    assert ToBE16(hi) == [wire[12], wire[13]] && ToBE16(lo) == [wire[14], wire[15]];
  }

  lemma {:induction false} PutBack(wire: bytes, snap: nat)
    requires |wire| >= 16 && 12 <= snap <= |wire| - 4
    ensures var kept := (wire[..12] + wire[16..])[..snap];
            kept[..12] + wire[12..16] + kept[12..] == wire[..snap + 4]
  {
  }

  /** The reader finds the packet of a frame, with its tag back in and its metadata. */
  lemma {:induction false} FrameShows(blk: bytes, vnet: bool, off: nat, p: Sent, next: nat)
    requires FrameHolds(blk, vnet, off, p, next)
    ensures HdrFits(|blk|, off) && ReadHdr(blk, off).next == next && FrameFits(vnet, |blk|, off, ReadHdr(blk, off))
    ensures ItemAt(blk, vnet, off, ReadHdr(blk, off)) == ItemOf(vnet, p)
  {
    hide ReadHdr, Long, Word, Bit, Shifted, Unmarshal;
    var h := ReadHdr(blk, off);
    HdrIs(blk, off);
    LongIs(blk, off + 20);
    StatusIs(blk, off + 20);
    var d := off + h.mac;
    WireShows(blk, vnet, off, p, h, d);
    if vnet {
      var o :| IsHeader(blk[d - 10..d], o) && Recorded(o, p);
      HeaderIs(blk[d - 10..d], o);
      ShiftedIs(o, p);
    }
  }

  lemma {:induction false} WireShows(blk: bytes, vnet: bool, off: u32, p: Sent, h: Hdr, d: nat)
    requires off + 48 <= |blk| && p.Valid() && FrameFits(vnet, |blk|, off, h) && d == off + h.mac && h.snaplen == p.snap
    requires (Tagged(h) <==> p.stripped) && blk[d..d + p.snap] == p.Kept()[..p.snap]
    requires h.tci == Long(blk, off + 32) && h.tpid == Word(blk, off + 36)
             && (p.stripped ==> TagHolds(blk, off, p.wire))
    ensures Wire(blk, vnet, off, h) == p.wire[..if p.stripped then p.snap + 4 else p.snap]
  {
    hide Long, Word, Tag, TagHolds, Tagged;
    if p.stripped {
      TagIs(blk, off, h, p.wire);
      PutBack(p.wire, p.snap);
      var kept := p.Kept()[..p.snap];
      assert blk[d..d + 12] == kept[..12] && blk[d + 12..d + p.snap] == kept[12..];
    }
  }

  /** One frame of the walk. */
  lemma {:induction false} WalkStep(blk: bytes, vnet: bool, off: u32, n: nat, next: nat)
    requires 48 <= |blk| && n > 0 && HdrFits(|blk|, off) && FrameFits(vnet, |blk|, off, ReadHdr(blk, off))
    requires ReadHdr(blk, off).next == next && (n > 1 ==> next > 0 && off + next < TWO32)
    ensures Walk(blk, vnet, off, n)
         == [ItemAt(blk, vnet, off, ReadHdr(blk, off))] + if n > 1 then Walk(blk, vnet, off + next, n - 1) else []
  {
    hide ItemAt, ReadHdr;
  }

  /** Frame by frame: just those packets, in order. */
  lemma {:induction false} WalkShows(blk: bytes, vnet: bool, off: nat, ps: seq<Sent>)
    requires 48 <= |blk| < TWO32 && off < TWO32 && FramesHold(blk, vnet, off, ps)
    ensures AllValid(ps) && Walk(blk, vnet, off, |ps|) == ItemsOf(vnet, ps)
    decreases |ps|
  {
    hide FrameHolds, ItemOf, ItemAt, FrameFits, HdrFits, ReadHdr, Sent.Valid;
    if ps != [] {
      var next := FirstFrame(blk, vnet, off, ps);
      hide Walk, FramesHold;
      FrameShows(blk, vnet, off, ps[0], next);
      WalkStep(blk, vnet, off, |ps|, next);
      if |ps| > 1 {
        WalkShows(blk, vnet, off + next, ps[1..]);
      } else {
        assert ps[1..] == [];
      }
    }
  }

  lemma {:induction false} FirstFrame(blk: bytes, vnet: bool, off: nat, ps: seq<Sent>) returns (next: nat)
    requires FramesHold(blk, vnet, off, ps) && ps != []
    ensures FrameHolds(blk, vnet, off, ps[0], next) && ps[0].Valid()
    ensures |ps| > 1 ==> next > 0 && off + next < TWO32 && FramesHold(blk, vnet, off + next, ps[1..])
  {
    hide FrameHolds;
    next :| FrameHolds(blk, vnet, off, ps[0], next)
            && (|ps| > 1 ==> next > 0 && FramesHold(blk, vnet, off + next, ps[1..]));
    FrameInside(blk, vnet, off, ps[0], next);
    if |ps| > 1 {
      NextInside(blk, vnet, off + next, ps[1..]);
    }
  }

  lemma {:induction false} FrameInside(blk: bytes, vnet: bool, off: nat, p: Sent, next: nat)
    requires FrameHolds(blk, vnet, off, p, next)
    ensures p.Valid() && off + 48 <= |blk| && next < TWO32
  {
    LongIs(blk, off);
  }

  lemma {:induction false} NextInside(blk: bytes, vnet: bool, off: nat, ps: seq<Sent>)
    requires FramesHold(blk, vnet, off, ps) && ps != []
    ensures off + 48 <= |blk| < TWO32
  {
  }

  /** A block that holds packets is ready, and what the reader meets in it are those packets. */
  lemma {:induction false} BlockShows(blk: bytes, vnet: bool, ps: seq<Sent>)
    requires BlockHolds(blk, vnet, ps)
    ensures Ready(blk) && AllValid(ps) && BlockItems(blk, vnet) == ItemsOf(vnet, ps)
  {
    hide FramesHold, Walk, Bit;
    LongIs(blk, 12);
    LongIs(blk, 16);
    StatusIs(blk, 8);
    WalkShows(blk, vnet, Long(blk, 16), ps);
  }

  // ------------------------------------------------------ such blocks there are

  /** Byte `k` of a field of up to four, low byte first. */
  function ByteOf(v: u32, k: nat): u8 {
    if k == 0 then v % 256 else if k == 1 then v / 256 % 256 else if k == 2 then v / 65536 % 256
    else if k == 3 then v / 16777216 else 0
  }

  lemma {:induction false} BytesOf(b: bytes, at: nat, v: u32)
    requires at + 4 <= |b| && b[at] == ByteOf(v, 0) && b[at + 1] == ByteOf(v, 1)
    requires b[at + 2] == ByteOf(v, 2) && b[at + 3] == ByteOf(v, 3)
    ensures Long(b, at) == v
  {
    var w, x := v / 256, v / 256 / 256;
    assert v == v % 256 + 256 * w && w == w % 256 + 256 * x && x == x % 256 + 256 * (x / 256);
    DivTwice(v);
  }

  lemma {:induction false} DivTwice(v: nat)
    ensures v / 65536 == v / 256 / 256 && v / 16777216 == v / 256 / 256 / 256
  {
    var a, b, c, x := v % 256, v / 256 % 256, v / 256 / 256 % 256, v / 256 / 256;
    assert v == (a + 256 * b) + 65536 * x && 0 <= a + 256 * b < 65536;
    assert v == (a + 256 * b + 65536 * c) + 16777216 * (x / 256) && 0 <= a + 256 * b + 65536 * c < 16777216;
  }

  lemma {:induction false} HalfOf(b: bytes, at: nat, v: u16)
    requires at + 2 <= |b| && b[at] == ByteOf(v, 0) && b[at + 1] == ByteOf(v, 1)
    ensures Word(b, at) == v
  {
  }

  /** A packet there is a frame for: its offsets survive its tag. */
  predicate Layable(p: Sent) {
    && p.Valid() && |p.wire| < TWO32 - 64
    && (p.stripped ==>
          && BE16(p.wire, 12) != 0 && (p.meta.flags % 2 == 1 ==> p.meta.csumStart >= 4)
          && (p.meta.hdrLen == 0 || p.meta.hdrLen > 4))
  }

  function Stored(p: Sent): Offload
    requires Layable(p)
  {
    if !p.stripped then p.meta
    else p.meta.(csumStart := if p.meta.flags % 2 == 1 then p.meta.csumStart - 4 else p.meta.csumStart,
                 hdrLen := if p.meta.hdrLen == 0 then 0 else p.meta.hdrLen - 4)
  }

  /** The header of a frame whose data lies 58 bytes past it, behind a virtio header. */
  function HeaderByte(p: Sent, i: nat): u8
    requires Layable(p)
  {
    if i < 4 then ByteOf(58 + p.snap, i)
    else if i < 8 then ByteOf(p.sec, i - 4)
    else if i < 12 then ByteOf(p.nsec, i - 8)
    else if i < 16 then ByteOf(p.snap, i - 12)
    else if i < 20 then ByteOf(|p.Kept()|, i - 16)
    else if i == 20 then (if p.stripped then 16 else 0)
    else if i == 24 then 58
    else if 32 <= i < 34 && p.stripped then ByteOf(BE16(p.wire, 14), i - 32)
    else if 36 <= i < 38 && p.stripped then ByteOf(BE16(p.wire, 12), i - 36)
    else 0
  }

  function FrameBytes(p: Sent): (b: bytes)
    requires Layable(p)
    ensures |b| == 58 + p.snap
  {
    seq(48, i requires 0 <= i < 48 => HeaderByte(p, i)) + Marshal(Stored(p)) + p.Kept()[..p.snap]
  }

  ghost predicate AllLayable(ps: seq<Sent>) { forall i {:trigger ps[i]} :: 0 <= i < |ps| ==> Layable(ps[i]) }

  function AllFrames(ps: seq<Sent>): bytes
    requires AllLayable(ps)
  {
    if ps == [] then [] else FrameBytes(ps[0]) + AllFrames(ps[1..])
  }

  function BlockBytes(ps: seq<Sent>): bytes
    requires AllLayable(ps) && |ps| < TWO32
  {
    seq(48, i requires 0 <= i < 48 =>
      if i == 8 then 1 else if 12 <= i < 16 then ByteOf(|ps|, i - 12) else if i == 16 then 48 else 0)
    + AllFrames(ps)
  }

  lemma {:induction false} FrameLaid(pre: bytes, p: Sent, rest: bytes, vnet: bool)
    requires Layable(p) && |pre + FrameBytes(p) + rest| < TWO32
    ensures FrameHolds(pre + FrameBytes(p) + rest, vnet, |pre|, p, 58 + p.snap)
  {
    hide Layable, Sent.Valid, FrameBytes, Long, Word, Stored, Marshal, IsHeader, Recorded, TagHolds, HeaderByte;
    LayableValid(p);
    var blk := pre + FrameBytes(p) + rest;
    HeaderLaid(pre, p, rest, blk);
    FieldsLaid(blk, |pre|, p);
    DataLaid(pre, p, rest, blk);
    StoredIs(p);
  }

  lemma {:induction false} HeaderLaid(pre: bytes, p: Sent, rest: bytes, blk: bytes)
    requires Layable(p) && blk == pre + FrameBytes(p) + rest
    ensures AllLaid(blk, |pre|, p)
  {
    hide Layable, Marshal, Stored, HeaderByte;
    forall i | 0 <= i < 48
      ensures Laid(blk, |pre|, p, i)
    {
      assert blk[|pre| + i] == FrameBytes(p)[i];
    }
  }

  lemma {:induction false} DataLaid(pre: bytes, p: Sent, rest: bytes, blk: bytes)
    requires Layable(p) && p.snap <= |p.Kept()| && blk == pre + FrameBytes(p) + rest
    ensures var at := |pre| + 58;
            && at + p.snap <= |blk| && blk[at..at + p.snap] == p.Kept()[..p.snap]
            && blk[at - 10..at] == Marshal(Stored(p))
  {
    hide Layable, Marshal, Stored, HeaderByte;
    var head := seq(48, i requires 0 <= i < 48 => HeaderByte(p, i));
    var m, data := Marshal(Stored(p)), p.Kept()[..p.snap];
    assert blk == (pre + head) + m + (data + rest) && blk == (pre + head + m) + data + rest;
  }

  /** Byte `i` of the header at `off` is in its place. */
  ghost predicate Laid(blk: bytes, off: nat, p: Sent, i: nat)
    requires Layable(p)
  {
    off + i < |blk| && blk[off + i] == HeaderByte(p, i)
  }

  ghost predicate AllLaid(blk: bytes, off: nat, p: Sent)
    requires Layable(p)
  {
    forall i {:trigger Laid(blk, off, p, i)} :: 0 <= i < 48 ==> Laid(blk, off, p, i)
  }

  lemma {:induction false} LayableValid(p: Sent)
    requires Layable(p)
    ensures p.Valid() && p.snap <= |p.Kept()| < TWO32 - 64
  {
  }

  lemma {:induction false} FieldsLaid(blk: bytes, off: nat, p: Sent)
    requires Layable(p) && off + 48 <= |blk|
    requires AllLaid(blk, off, p)
    ensures Long(blk, off) == 58 + p.snap && Long(blk, off + 4) == p.sec && Long(blk, off + 8) == p.nsec
    ensures Long(blk, off + 12) == p.snap && Long(blk, off + 16) == |p.Kept()| && Word(blk, off + 24) == 58
    ensures (blk[off + 20] / 16 % 2 == 1 <==> p.stripped) && (p.stripped ==> TagHolds(blk, off, p.wire))
  {
    hide Long, Layable, Laid, Sent.Kept, Sent.Valid, AllLaid;
    LayableValid(p);
    FiftyEight();
    hide ByteOf;
    FieldLaid(blk, off, p, 0, 58 + p.snap);
    FieldLaid(blk, off, p, 4, p.sec);
    FieldLaid(blk, off, p, 8, p.nsec);
    FieldLaid(blk, off, p, 12, p.snap);
    FieldLaid(blk, off, p, 16, |p.Kept()|);
    HalfLaid(blk, off, p, 24, 58);
    if p.stripped {
      HalfLaid(blk, off, p, 32, BE16(p.wire, 14));
      HalfLaid(blk, off, p, 36, BE16(p.wire, 12));
      LayableTag(p);
    }
    StatusLaid(blk, off, p);
  }

  lemma {:induction false} FiftyEight()
    ensures ByteOf(58, 0) == 58 && ByteOf(58, 1) == 0
  {
  }

  lemma {:induction false} StatusLaid(blk: bytes, off: nat, p: Sent)
    requires Layable(p) && off + 48 <= |blk| && AllLaid(blk, off, p)
    ensures blk[off + 20] / 16 % 2 == 1 <==> p.stripped
  {
    hide Layable;
    assert Laid(blk, off, p, 20);
  }

  lemma {:induction false} LayableTag(p: Sent)
    requires Layable(p) && p.stripped
    ensures |p.wire| >= 16 && BE16(p.wire, 12) != 0
  {
  }

  lemma {:induction false} FieldLaid(blk: bytes, off: nat, p: Sent, i: nat, v: u32)
    requires Layable(p) && off + 48 <= |blk| && i + 4 <= 48
    requires AllLaid(blk, off, p)
    requires HeaderByte(p, i) == ByteOf(v, 0) && HeaderByte(p, i + 1) == ByteOf(v, 1)
    requires HeaderByte(p, i + 2) == ByteOf(v, 2) && HeaderByte(p, i + 3) == ByteOf(v, 3)
    ensures Long(blk, off + i) == v
  {
    hide HeaderByte, ByteOf, Layable;
    assert Laid(blk, off, p, i) && Laid(blk, off, p, i + 1) && Laid(blk, off, p, i + 2) && Laid(blk, off, p, i + 3);
    BytesOf(blk, off + i, v);
  }

  lemma {:induction false} HalfLaid(blk: bytes, off: nat, p: Sent, i: nat, v: u16)
    requires Layable(p) && off + 48 <= |blk| && i + 2 <= 48
    requires AllLaid(blk, off, p)
    requires HeaderByte(p, i) == ByteOf(v, 0) && HeaderByte(p, i + 1) == ByteOf(v, 1)
    ensures Word(blk, off + i) == v
  {
    hide HeaderByte, ByteOf, Layable;
    assert Laid(blk, off, p, i) && Laid(blk, off, p, i + 1);
    HalfOf(blk, off + i, v);
  }

  lemma {:induction false} StoredIs(p: Sent)
    requires Layable(p)
    ensures IsHeader(Marshal(Stored(p)), Stored(p)) && Recorded(Stored(p), p)
  {
    HeaderIff(Marshal(Stored(p)), Stored(p));
  }

  lemma {:induction false} FramesLaid(pre: bytes, ps: seq<Sent>, vnet: bool)
    requires AllLayable(ps) && |pre + AllFrames(ps)| < TWO32
    ensures FramesHold(pre + AllFrames(ps), vnet, |pre|, ps)
    decreases |ps|
  {
    hide FrameHolds, Layable, FrameBytes;
    if ps != [] {
      var f, rest := FrameBytes(ps[0]), AllFrames(ps[1..]);
      assert pre + AllFrames(ps) == pre + f + rest == (pre + f) + rest;
      FrameLaid(pre, ps[0], rest, vnet);
      FramesLaid(pre + f, ps[1..], vnet);
    }
  }

  /** For any packets there is a block that holds them, as long as its offsets reach. */
  lemma {:induction false} BlockLaid(ps: seq<Sent>, vnet: bool)
    requires AllLayable(ps) && |ps| < TWO32 && |BlockBytes(ps)| < TWO32
    ensures BlockHolds(BlockBytes(ps), vnet, ps)
  {
    hide FramesHold, Layable, AllFrames, ByteOf;
    var blk := BlockBytes(ps);
    var head := blk[..48];
    assert blk == head + AllFrames(ps);
    FramesLaid(head, ps, vnet);
    BytesOf(blk, 12, |ps|);
    First();
    BytesOf(blk, 16, 48);
  }

  lemma {:induction false} First()
    ensures ByteOf(48, 0) == 48 && ByteOf(48, 1) == 0 && ByteOf(48, 2) == 0 && ByteOf(48, 3) == 0
  {
  }
}
