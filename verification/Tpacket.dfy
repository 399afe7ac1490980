/**
 What the bytes of a TPACKET_V3 block mean to the reader, whatever the kernel
 wrote in them, and what the reader does with each packet.
 */
module Tpacket {
  import opened Words
  import opened Bytes
  import opened Offloads

  const BLOCK_HDR: nat := 48
  const FRAME_HDR: nat := 48

  /** Offsets of the fields used, in the block header and in a frame header. */
  const OFF_STATUS: nat := 8
  const OFF_NUM_PKTS: nat := 12
  const OFF_FIRST: nat := 16
  const OFF_NEXT: nat := 0
  const OFF_SEC: nat := 4
  const OFF_NSEC: nat := 8
  const OFF_SNAPLEN: nat := 12
  const OFF_LEN: nat := 16
  const OFF_FRAME_STATUS: nat := 20
  const OFF_MAC: nat := 24
  const OFF_VLAN_TCI: nat := 32
  const OFF_VLAN_TPID: nat := 36

  function U16(b: bytes, at: nat): (v: u16)
    requires at + 2 <= |b|
  {
    Pow256Values();
    FromLE(b[at..at + 2])
  }

  function U32(b: bytes, at: nat): (v: u32)
    requires at + 4 <= |b|
  {
    Pow256Values();
    FromLE(b[at..at + 4])
  }

  /** One frame header, as read. */
  datatype Hdr = Hdr(next: u32, sec: u32, nsec: u32, snaplen: u32, len: u32, status: u32,
                     mac: u16, tci: u32, tpid: u16)

  function ReadHdr(blk: bytes, off: nat): Hdr
    requires off + FRAME_HDR <= |blk|
  {
    Hdr(U32(blk, off + OFF_NEXT), U32(blk, off + OFF_SEC), U32(blk, off + OFF_NSEC),
        U32(blk, off + OFF_SNAPLEN), U32(blk, off + OFF_LEN), U32(blk, off + OFF_FRAME_STATUS),
        U16(blk, off + OFF_MAC), U32(blk, off + OFF_VLAN_TCI), U16(blk, off + OFF_VLAN_TPID))
  }

  /** Whether a header at `off` lies inside a block of `size` bytes. */
  predicate HdrFits(size: nat, off: u32)
    requires size >= FRAME_HDR
  {
    off <= size - FRAME_HDR
  }

  /** Whether the frame a header describes lies inside the block, its virtio header too. */
  predicate FrameFits(vnet: bool, size: nat, off: u32, h: Hdr)
    requires off <= size
  {
    if vnet && h.mac < HDR_LEN then false
    else
      var avail := size - off;
      if h.mac > avail then false else h.snaplen <= avail - h.mac
  }

  /** Whether the kernel stripped a tag that can be put back. */
  predicate Tagged(h: Hdr) { Bit(h.status, 4) && h.snaplen >= 12 }

  function Tag(h: Hdr): (t: bytes)
    ensures |t| == 4
  {
    var tpid := if h.tpid == 0 then 0x8100 else h.tpid;
    ToBE16(tpid) + ToBE16(h.tci % 0x10000)
  }

  function TagLen(h: Hdr): nat { if Tagged(h) then 4 else 0 }

  /** What the reader finds at one place of a block. */
  datatype Item =
    | Bad                                              // the kernel's own cursor leaves the block
    | Packet(clipped: bool, wire: bytes, off: Offload, time: nat)

  /** The packet as it was on the wire: the tag back between the addresses and the type. */
  function Wire(blk: bytes, vnet: bool, off: u32, h: Hdr): (w: bytes)
    requires off <= |blk| && FrameFits(vnet, |blk|, off, h)
    ensures |w| == h.snaplen + TagLen(h)
  {
    var d := off + h.mac;
    if Tagged(h) then blk[d..d + 12] + Tag(h) + blk[d + 12..d + h.snaplen]
    else blk[d..d + h.snaplen]
  }

  function OffloadAt(blk: bytes, vnet: bool, off: u32, h: Hdr): Offload
    requires off <= |blk| && FrameFits(vnet, |blk|, off, h)
  {
    if !vnet then NONE
    else
      var d := off + h.mac;
      Shifted(Unmarshal(blk[d - HDR_LEN..d]), TagLen(h))
  }

  function ItemAt(blk: bytes, vnet: bool, off: u32, h: Hdr): Item
    requires off <= |blk| && FrameFits(vnet, |blk|, off, h)
  {
    Packet(h.snaplen < h.len, Wire(blk, vnet, off, h), OffloadAt(blk, vnet, off, h),
           h.sec * 1_000_000_000 + h.nsec)
  }

  /** Everything the reader will meet from `off` on, with `n` frames still promised. */
  function Walk(blk: bytes, vnet: bool, off: u32, n: nat): (items: seq<Item>)
    requires |blk| >= FRAME_HDR
    ensures |items| <= n && (n > 0 ==> items != [])
    decreases n
  {
    if n == 0 then []
    else if !HdrFits(|blk|, off) then [Bad]
    else
      var h := ReadHdr(blk, off);
      if !FrameFits(vnet, |blk|, off, h) then [Bad]
      else [ItemAt(blk, vnet, off, h)] +
           if h.next == 0 then [] else Walk(blk, vnet, Wrap32(off + h.next), n - 1)
  }

  predicate Ready(blk: bytes)
    requires |blk| >= BLOCK_HDR
  {
    Bit(U32(blk, OFF_STATUS), 0)
  }

  function BlockItems(blk: bytes, vnet: bool): seq<Item>
    requires |blk| >= BLOCK_HDR
  {
    Walk(blk, vnet, U32(blk, OFF_FIRST), U32(blk, OFF_NUM_PKTS))
  }

  // ------------------------------------------------ what becomes of a packet

  /** How the ring was opened: chained delivery, and bytes per receive buffer. */
  datatype Mode = Mode(chain: bool, room: nat)

  /** How many buffers `n` bytes need. */
  function Buffers(n: nat, room: nat): nat
    requires room > 0
  {
    (n + room - 1) / room
  }

  datatype Verdict =
    | Leave                     // not dealt with by this call
    | Skip(tooSmall: bool)      // counted oversize and stepped over
    | Give(n: nat)              // delivered in `n` slots

  /**
   What one call that has filled `out` of `max` slots, with `avail` frames to
   fill in all, does with the next item.
   */
  function Judge(m: Mode, item: Item, out: nat, max: nat, avail: nat): Verdict
    requires m.room > 0
  {
    if item.Bad? then Skip(false)
    else if out >= avail then Leave
    else if item.clipped then Skip(false)
    else if |item.wire| <= m.room then Give(1)
    else if !m.chain then Skip(false)
    else
      var n := Buffers(|item.wire|, m.room);
      if out + n <= max && out + n <= avail then Give(n)
      else if max <= avail && out == 0 then Skip(true)
      else Leave
  }

  /** One output slot: its bytes, whether the packet goes on, and the packet's metadata. */
  datatype Slot = Slot(data: bytes, cont: bool, off: Offload, time: nat)

  /** A packet cut into buffer-sized pieces. */
  function Pieces(w: bytes, room: nat): (ps: seq<bytes>)
    requires room > 0
    decreases |w|
  {
    if |w| <= room then [w] else [w[..room]] + Pieces(w[room..], room)
  }

  /** The slots one packet is delivered in: metadata on the first, continued on all but the last. */
  function SlotsOf(item: Item, room: nat): (ss: seq<Slot>)
    requires item.Packet? && room > 0
    ensures |ss| == |Pieces(item.wire, room)|
  {
    SlotsAs(Pieces(item.wire, room), item.off, item.time)
  }

  /** The same for pieces already cut. */
  function SlotsAs(ps: seq<bytes>, off: Offload, time: nat): (ss: seq<Slot>)
    ensures |ss| == |ps|
  {
    seq(|ps|, i requires 0 <= i < |ps| =>
      Slot(ps[i], i < |ps| - 1, if i == 0 then off else NONE, if i == 0 then time else 0))
  }

  /** How many items one call consumes. */
  function Consumed(m: Mode, items: seq<Item>, out: nat, max: nat, avail: nat): (k: nat)
    requires m.room > 0
    ensures k <= |items|
  {
    if items == [] || out >= max then 0
    else
      match Judge(m, items[0], out, max, avail)
      case Leave => 0
      case Skip(_) => 1 + Consumed(m, items[1..], out, max, avail)
      case Give(n) => 1 + Consumed(m, items[1..], out + n, max, avail)
  }

  /** The slots one call fills. */
  function Filled(m: Mode, items: seq<Item>, out: nat, max: nat, avail: nat): (ss: seq<Slot>)
    requires m.room > 0
    decreases |items|
  {
    if items == [] || out >= max then []
    else
      match Judge(m, items[0], out, max, avail)
      case Leave => []
      case Skip(_) => Filled(m, items[1..], out, max, avail)
      case Give(n) => SlotsOf(items[0], m.room) + Filled(m, items[1..], out + n, max, avail)
  }

  /** How many items one call counts oversize. */
  function Oversize(m: Mode, items: seq<Item>, out: nat, max: nat, avail: nat): nat
    requires m.room > 0
  {
    if items == [] || out >= max then 0
    else
      match Judge(m, items[0], out, max, avail)
      case Leave => 0
      case Skip(_) => 1 + Oversize(m, items[1..], out, max, avail)
      case Give(n) => Oversize(m, items[1..], out + n, max, avail)
  }

  /** How many of those a bigger batch would have taken. */
  function BatchTooSmall(m: Mode, items: seq<Item>, out: nat, max: nat, avail: nat): nat
    requires m.room > 0
  {
    if items == [] || out >= max then 0
    else
      match Judge(m, items[0], out, max, avail)
      case Leave => 0
      case Skip(small) => (if small then 1 else 0) + BatchTooSmall(m, items[1..], out, max, avail)
      case Give(n) => BatchTooSmall(m, items[1..], out + n, max, avail)
  }

  /** How far a call has come: the slots filled, the items dealt with, and the two counts. */
  datatype Tally = Tally(slots: seq<Slot>, items: nat, over: nat, small: nat)

  /** The slots a verdict adds. */
  function Adds(v: Verdict, item: Item, room: nat): seq<Slot>
    requires room > 0
  {
    if v.Give? && item.Packet? then SlotsOf(item, room) else []
  }

  function Tallied(t: Tally, v: Verdict, item: Item, room: nat): Tally
    requires room > 0
  {
    if v.Leave? then t
    else Tally(t.slots + Adds(v, item, room), t.items + 1,
               t.over + (if v.Skip? then 1 else 0), t.small + (if v == Skip(true) then 1 else 0))
  }

  /** A tally of the first items agrees with what the whole call will come to. */
  ghost predicate Upto(m: Mode, items: seq<Item>, max: nat, avail: nat, t: Tally)
    requires m.room > 0
  {
    && t.items <= |items|
    && var rest, out := items[t.items..], |t.slots|;
       && Filled(m, items, 0, max, avail) == t.slots + Filled(m, rest, out, max, avail)
       && Consumed(m, items, 0, max, avail) == t.items + Consumed(m, rest, out, max, avail)
       && Oversize(m, items, 0, max, avail) == t.over + Oversize(m, rest, out, max, avail)
       && BatchTooSmall(m, items, 0, max, avail) == t.small + BatchTooSmall(m, rest, out, max, avail)
  }

  lemma {:induction false} UptoNone(m: Mode, items: seq<Item>, max: nat, avail: nat)
    requires m.room > 0
    ensures Upto(m, items, max, avail, Tally([], 0, 0, 0))
  {
    assert items[0..] == items;
  }

  lemma {:induction false} UptoNext(m: Mode, items: seq<Item>, max: nat, avail: nat, t: Tally)
    requires m.room > 0 && Upto(m, items, max, avail, t) && t.items < |items| && |t.slots| < max
    ensures var item := items[t.items];
            Upto(m, items, max, avail, Tallied(t, Judge(m, item, |t.slots|, max, avail), item, m.room))
  {
    hide Pieces, Join;
    var item, more, out := items[t.items], items[t.items..], |t.slots|;
    assert more[0] == item && more[1..] == items[t.items + 1..];
    match Judge(m, item, out, max, avail)
    case Leave =>
    case Skip(_) =>
      assert t.slots + [] == t.slots;
    case Give(n) =>
      var ss, later := SlotsOf(item, m.room), Filled(m, more[1..], out + n, max, avail);
      SlotsCarry(item, m.room);
      BuffersStep(|item.wire|, m.room);
      assert t.slots + (ss + later) == (t.slots + ss) + later;
  }

  /** The same whatever may still be added behind the items. */
  ghost predicate Surely(m: Mode, items: seq<Item>, max: nat, avail: nat, t: Tally)
    requires m.room > 0
  {
    t.items <= |items| && forall more: seq<Item> {:trigger items + more} :: Upto(m, items + more, max, avail, t)
  }

  lemma {:induction false} SurelyNone(m: Mode, items: seq<Item>, max: nat, avail: nat)
    requires m.room > 0
    ensures Surely(m, items, max, avail, Tally([], 0, 0, 0))
  {
    hide Upto;
    forall more: seq<Item>
      ensures Upto(m, items + more, max, avail, Tally([], 0, 0, 0))
    {
      UptoNone(m, items + more, max, avail);
    }
  }

  /** Items that arrive behind the others change nothing. */
  lemma {:induction false} SurelyGrows(m: Mode, items: seq<Item>, added: seq<Item>, max: nat, avail: nat, t: Tally)
    requires m.room > 0 && Surely(m, items, max, avail, t)
    ensures Surely(m, items + added, max, avail, t)
  {
    hide Upto;
    forall more: seq<Item>
      ensures Upto(m, (items + added) + more, max, avail, t)
    {
      assert (items + added) + more == items + (added + more);
    }
  }

  /** One item more, when what is left is known as the rest of a block and what comes after it. */
  lemma {:induction false} Onward(m: Mode, items: seq<Item>, max: nat, avail: nat, t: Tally, cur: seq<Item>,
                                  later: seq<Item>, v: Verdict)
    requires m.room > 0 && Surely(m, items, max, avail, t) && |t.slots| < max
    requires items[t.items..] == cur + later && cur != [] && v == Judge(m, cur[0], |t.slots|, max, avail)
    ensures t.items < |items| && items[t.items] == cur[0]
    ensures var u := Tallied(t, v, cur[0], m.room);
            && Surely(m, items, max, avail, u)
            && (!v.Leave? ==> items[u.items..] == cur[1..] + later)
            && |u.slots| == |t.slots| + (if v.Give? then v.n else 0)
  {
    hide Upto, Judge, SlotsOf;
    assert items[t.items..][0] == cur[0];
    var u := Tallied(t, v, cur[0], m.room);
    forall more: seq<Item>
      ensures Upto(m, items + more, max, avail, u)
    {
      assert (items + more)[t.items] == cur[0];
      UptoNext(m, items + more, max, avail, t);
    }
    if v.Give? {
      GivesAll(m, cur[0], |t.slots|, max, avail);
    }
    if !v.Leave? {
      assert items[t.items + 1..] == items[t.items..][1..];
    }
  }

  /** A packet is given as many slots as its verdict says. */
  lemma {:induction false} GivesAll(m: Mode, item: Item, out: nat, max: nat, avail: nat)
    requires m.room > 0 && Judge(m, item, out, max, avail).Give?
    ensures item.Packet? && |SlotsOf(item, m.room)| == Judge(m, item, out, max, avail).n
  {
    SlotsCarry(item, m.room);
    BuffersStep(|item.wire|, m.room);
  }

  /** Where the call stops: out of items, out of slots, or at one it leaves. */
  lemma {:induction false} UptoEnd(m: Mode, items: seq<Item>, max: nat, avail: nat, t: Tally)
    requires m.room > 0 && Surely(m, items, max, avail, t)
    requires |t.slots| < max && t.items < |items| ==> Judge(m, items[t.items], |t.slots|, max, avail).Leave?
    ensures Filled(m, items, 0, max, avail) == t.slots && Consumed(m, items, 0, max, avail) == t.items
    ensures Oversize(m, items, 0, max, avail) == t.over && BatchTooSmall(m, items, 0, max, avail) == t.small
  {
    assert items + [] == items;
    assert Upto(m, items, max, avail, t);
    if t.items < |items| {
      assert items[t.items..][0] == items[t.items];
    }
  }

  // -------------------------------------------------------------- pieces

  function Join(ps: seq<bytes>): bytes {
    if ps == [] then [] else ps[0] + Join(ps[1..])
  }

  lemma {:induction false} BuffersStep(n: nat, room: nat)
    requires room > 0
    ensures n > room ==> Buffers(n, room) == 1 + Buffers(n - room, room)
    ensures 0 < n <= room ==> Buffers(n, room) == 1
  {
    if n > room {
      var q, r := (n - room + room - 1) / room, (n - room + room - 1) % room;
      assert n - room + room - 1 == q * room + r;
      ModUnique(n + room - 1, room, q + 1, r);
    } else if n > 0 {
      ModUnique(n + room - 1, room, 1, n - 1);
    }
  }

  /**
   The pieces put end to end are the packet; there are just enough of them; all
   but the last are full and the last is not empty.
   */
  lemma {:induction false} PiecesWhole(w: bytes, room: nat)
    requires room > 0 && w != []
    ensures var ps := Pieces(w, room);
            && Join(ps) == w && |ps| == Buffers(|w|, room)
            && (forall i :: 0 <= i < |ps| - 1 ==> |ps[i]| == room)
            && 0 < |ps[|ps| - 1]| <= room
    decreases |w|
  {
    BuffersStep(|w|, room);
    if |w| > room {
      PiecesWhole(w[room..], room);
      var ps := Pieces(w, room);
      assert ps[1..] == Pieces(w[room..], room);
      assert w == w[..room] + w[room..];
    } else {
      assert Join([w]) == w + Join([]);
    }
  }

  // ------------------------------------------------ batches are whole packets

  /** The packets a batch of slots decodes to, following the continuation marks. */
  function Packets(ss: seq<Slot>): seq<bytes> {
    if ss == [] then []
    else if !ss[0].cont then [ss[0].data] + Packets(ss[1..])
    else
      var rest := Packets(ss[1..]);
      if rest == [] then [ss[0].data] else [ss[0].data + rest[0]] + rest[1..]
  }

  predicate EndsWhole(ss: seq<Slot>) { ss == [] || !ss[|ss| - 1].cont }

  /** The packets one call delivers. */
  function Delivered(m: Mode, items: seq<Item>, out: nat, max: nat, avail: nat): seq<bytes>
    requires m.room > 0
    decreases |items|
  {
    if items == [] || out >= max then []
    else
      match Judge(m, items[0], out, max, avail)
      case Leave => []
      case Skip(_) => Delivered(m, items[1..], out, max, avail)
      case Give(n) => [items[0].wire] + Delivered(m, items[1..], out + n, max, avail)
  }

  /** Slots carrying the pieces `ps` of one packet, the last of them final, in front of others. */
  ghost predicate Carries(ss: seq<Slot>, ps: seq<bytes>) {
    |ss| == |ps| && forall i :: 0 <= i < |ss| ==> ss[i].data == ps[i] && ss[i].cont == (i < |ss| - 1)
  }

  lemma {:induction false} CarriedPacket(ss: seq<Slot>, ps: seq<bytes>, more: seq<Slot>)
    requires Carries(ss, ps) && ps != []
    ensures Packets(ss + more) == [Join(ps)] + Packets(more)
  {
    assert (ss + more)[1..] == ss[1..] + more;
    if |ss| == 1 {
      assert ss[1..] + more == more;
      assert ps[1..] == [];
      assert Join(ps) == ps[0] + Join([]) == ps[0];
      assert (ss + more)[0] == ss[0] && !ss[0].cont;
    } else {
      CarriedPacket(ss[1..], ps[1..], more);
    }
  }

  lemma {:induction false} PacketsAppend(a: seq<Slot>, b: seq<Slot>)
    requires EndsWhole(a)
    ensures Packets(a + b) == Packets(a) + Packets(b) && (a != [] ==> Packets(a) != [])
  {
    if a == [] {
      assert a + b == b;
    } else {
      assert (a + b)[1..] == a[1..] + b;
      PacketsAppend(a[1..], b);
    }
  }

  /** The slots of one more packet decode to one more packet. */
  lemma {:induction false} PacketsGrow(a: seq<Slot>, item: Item, room: nat)
    requires item.Packet? && room > 0 && EndsWhole(a)
    ensures Packets(a + SlotsOf(item, room)) == Packets(a) + [item.wire] && EndsWhole(a + SlotsOf(item, room))
  {
    hide SlotsOf;
    var ss, ps := SlotsOf(item, room), Pieces(item.wire, room);
    SlotsCarry(item, room);
    CarriedPacket(ss, ps, []);
    assert ss + [] == ss;
    PacketsAppend(a, ss);
  }

  lemma {:induction false} SlotsCarry(item: Item, room: nat)
    requires item.Packet? && room > 0
    ensures Carries(SlotsOf(item, room), Pieces(item.wire, room)) && Join(Pieces(item.wire, room)) == item.wire
    ensures |SlotsOf(item, room)| == if item.wire == [] then 1 else Buffers(|item.wire|, room)
  {
    if item.wire == [] {
      assert Join([item.wire]) == item.wire + Join([]);
    } else {
      PiecesWhole(item.wire, room);
    }
  }

  /**
   Every batch a call returns decodes into complete packets, the ones delivered,
   and never ends inside one; and it stays within the slots and frames given.
   */
  lemma {:induction false} BatchIsWhole(m: Mode, items: seq<Item>, out: nat, max: nat, avail: nat)
    requires m.room > 0
    ensures var ss := Filled(m, items, out, max, avail);
            && Packets(ss) == Delivered(m, items, out, max, avail) && EndsWhole(ss)
            && (out <= max && out <= avail ==> out + |ss| <= max && out + |ss| <= avail)
    ensures |Delivered(m, items, out, max, avail)| + Oversize(m, items, out, max, avail)
            == Consumed(m, items, out, max, avail)
    decreases |items|
  {
    hide Pieces, Join, SlotsOf;
    if items != [] && out < max {
      match Judge(m, items[0], out, max, avail)
      case Leave =>
      case Skip(_) => BatchIsWhole(m, items[1..], out, max, avail);
      case Give(n) =>
        BatchIsWhole(m, items[1..], out + n, max, avail);
        var ss, rest := SlotsOf(items[0], m.room), Filled(m, items[1..], out + n, max, avail);
        SlotsCarry(items[0], m.room);
        BuffersStep(|items[0].wire|, m.room);
        CarriedPacket(ss, Pieces(items[0].wire, m.room), rest);
    }
  }

  // ------------------------------------------------------- packets that stall

  /**
   When a call that finds every frame of its pool free still leaves its first packet:
   the packet needs more frames than there are, and the call asked for more slots
   than that. A call that asks for fewer slots steps over it instead.
   */
  lemma {:induction false} StallsIff(m: Mode, item: Item, max: nat, count: nat)
    requires m.room > 0 && max > 0 && count > 0
    ensures Judge(m, item, 0, max, count).Leave? <==>
              && item.Packet? && !item.clipped && m.chain && |item.wire| > m.room
              && Buffers(|item.wire|, m.room) > count && max > count
  {
  }

  /** And it stays: no call that asks for more slots than the pool has frames gets past it. */
  lemma {:induction false} StallsForGood(m: Mode, items: seq<Item>, max: nat, count: nat, avail: nat)
    requires m.room > 0 && items != [] && avail <= count < max && Judge(m, items[0], 0, max, count).Leave? && count > 0
    ensures Consumed(m, items, 0, max, avail) == 0 && Filled(m, items, 0, max, avail) == []
  {
    StallsIff(m, items[0], max, count);
  }

  /** Such a packet: four buffers long, for calls of four slots on a pool of three frames. */
  lemma {:induction false} StallHere(rest: seq<Item>, avail: nat)
    requires avail <= 3
    ensures var m, items := Mode(true, 64), [Packet(false, seq(200, _ => 0), NONE, 0)] + rest;
            Consumed(m, items, 0, 4, avail) == 0 && Filled(m, items, 0, 4, avail) == []
  {
    var m, items := Mode(true, 64), [Packet(false, seq(200, _ => 0), NONE, 0)] + rest;
    StallsIff(m, items[0], 4, 3);
    StallsForGood(m, items, 4, 3, avail);
  }

  lemma {:induction false} BuffersMono(a: nat, b: nat, room: nat)
    requires room > 0 && a <= b
    ensures Buffers(a, room) <= Buffers(b, room)
    decreases b
  {
    BuffersStep(a, room);
    BuffersStep(b, room);
    if a > room {
      BuffersMono(a - room, b - room, room);
    } else if a == 0 {
      ModUnique(room - 1, room, 0, room - 1);
    } else if b > room {
      BuffersMono(0, b - room, room);
    }
  }

  /** A pool that was opened with room for a chained packet of 65536 bytes stalls on nothing up to that size. */
  lemma {:induction false} NoStall(m: Mode, item: Item, max: nat, count: nat)
    requires m.room > 0 && max > 0 && count > 0 && Buffers(0x10000, m.room) <= count
    requires item.Packet? ==> |item.wire| <= 0x10000
    ensures !Judge(m, item, 0, max, count).Leave?
  {
    StallsIff(m, item, max, count);
    if item.Packet? {
      BuffersMono(|item.wire|, 0x10000, m.room);
    }
  }
}
