/**
 One AF_PACKET receive queue: takes a frame per output slot from its free list,
 has the ring filled into them, gives back what was not used, and finishes the
 partial checksums of what was delivered.
 */
module RxQueue {
  import opened Words
  import opened Bytes
  import opened Pool
  import opened Offloads
  import opened Tpacket
  import opened RxBatch
  import opened RxSpread
  import opened RxRing
  import opened AfFrames
  import Csum
  import P = TpacketProtocol

  /** A descriptor's frame is found again by rounding its address down. */
  lemma {:induction false} FrameOfSlot(g: Geometry, f: nat)
    requires g.Valid() && g.frameSize >= 2 * HEADROOM && g.Holds(f)
    ensures FrameStart(f + HEADROOM, g.frameSize) == f
  {
    FrameUnique(f + HEADROOM, f, g.frameSize);
  }

  /** Gives the frames of slots from `got` on back to the free list, last first. */
  method GiveBack(batch: Batch, checked: bool, got: nat, ghost ss: seq<Slot>)
    requires batch.Valid() && got <= |batch.descs| && |batch.start| <= batch.g.count && batch.ShowsAll(ss)
             && |ss| == got
    modifies batch`free, batch`descs
    ensures batch.Valid() && batch.descs == old(batch.descs)[..got] && batch.ShowsAll(ss)
    ensures batch.free == Kept(batch.start, got)
  {
    var i := |batch.descs|;
    while i > got
      invariant got <= i <= |old(batch.descs)| && batch.Valid() && batch.descs == old(batch.descs)[..i]
                && batch.ShowsAll(ss)
    {
      i := i - 1;
      ghost var f := batch.start[|batch.start| - 1 - i];
      FrameOfSlot(batch.g, f);
      var addr := FrameStart(batch.descs[i], batch.g.frameSize);
      assert addr !in batch.free;
      batch.free := Pushed(batch.g, checked, batch.free, addr);
      DropLast(batch, i, ss);
    }
  }

  /** Forgets the last slot; the ones before it still show what they did. */
  method DropLast(batch: Batch, i: nat, ghost ss: seq<Slot>)
    requires i < |batch.descs| && |ss| <= i && batch.ShowsAll(ss)
    modifies batch`descs
    ensures batch.descs == old(batch.descs)[..i] && batch.ShowsAll(ss)
  {
    ghost var was := batch.descs;
    batch.descs := batch.descs[..i];
    forall k | 0 <= k < |ss|
      ensures batch.Shows(k, ss[k])
    {
      assert old(batch.Shows(k, ss[k])) && batch.descs[k] == was[k];
    }
  }

  /** The bytes of slot `i` once its checksum is dealt with, and its metadata. */
  ghost function Settled(ss: seq<Slot>, chain: bool, vnet: bool, i: nat): Csum.Finished
    requires i < |ss|
  {
    if !vnet then Csum.Finished(ss[i].data, ss[i].off, false)
    else Csum.Complete(ss[i].data, ss[i].off, Csum.Chained(if chain then Conts(ss) else [], i))
  }

  ghost function SettledAll(ss: seq<Slot>, chain: bool, vnet: bool): (fs: seq<Csum.Finished>)
    ensures |fs| == |ss|
  {
    seq(|ss|, i requires 0 <= i < |ss| => Settled(ss, chain, vnet, i))
  }

  ghost function Conts(ss: seq<Slot>): (cs: seq<bool>)
    ensures |cs| == |ss|
  {
    seq(|ss|, i requires 0 <= i < |ss| => ss[i].cont)
  }

  /**
   What one call hands out for the slots `ss`, taking frames off the end of
   `free`: the bytes and metadata are those of `fs`.
   */
  ghost predicate HandsOut(mem: bytes, free: seq<nat>, ss: seq<Slot>, fs: seq<Csum.Finished>,
                           descs: seq<Desc>, offs: seq<Offload>)
  {
    && |descs| == |offs| == |ss| == |fs| && |ss| <= |free|
    && forall i :: 0 <= i < |ss| ==>
         && descs[i].addr == free[|free| - 1 - i] + HEADROOM
         && descs[i].len == |ss[i].data| && descs[i].continued == ss[i].cont
         && descs[i].addr + descs[i].len <= |mem|
         && mem[descs[i].addr..descs[i].addr + descs[i].len] == fs[i].frame
         && offs[i] == fs[i].off
  }

  /** Reads the filled slots off the batch. */
  method Describe(batch: Batch, got: nat, ghost ss: seq<Slot>) returns (descs: seq<Desc>, ws: seq<Csum.Window>)
    requires batch.Valid() && got == |ss| == |batch.descs| && batch.ShowsAll(ss)
    ensures |descs| == |ws| == got && Csum.Placed(ws, batch.region.Length)
    ensures forall i :: 0 <= i < got ==>
              && descs[i] == Desc(batch.descs[i], |ss[i].data|, ss[i].cont)
              && ws[i] == Csum.Window(batch.descs[i], |ss[i].data|)
  {
    hide Batch.Valid, Batch.ShowsAll, Csum.Placed;
    ShownLens(batch, ss);
    descs, ws := [], [];
    for i := 0 to got
      invariant |descs| == |ws| == i
      invariant forall j :: 0 <= j < i ==> descs[j] == Desc(batch.descs[j], |ss[j].data|, ss[j].cont)
      invariant forall j :: 0 <= j < i ==> ws[j] == Csum.Window(batch.descs[j], |ss[j].data|)
    {
      assert batch.lens[i] == |ss[i].data|;
      descs := descs + [Desc(batch.descs[i], batch.lens[i], batch.cont[i])];
      ws := ws + [Csum.Window(batch.descs[i], batch.lens[i])];
    }
    SlotsPlaced(batch, ss, ws);
  }

  lemma {:induction false} ShownLens(batch: Batch, ss: seq<Slot>)
    requires batch.Valid() && batch.ShowsAll(ss) && |ss| == |batch.descs|
    ensures |ss| <= |batch.lens| == |batch.cont|
    ensures forall i {:trigger ss[i]} :: 0 <= i < |ss| ==>
              batch.lens[i] == |ss[i].data| < TWO32 && batch.cont[i] == ss[i].cont
  {
    forall i | 0 <= i < |ss|
      ensures batch.lens[i] == |ss[i].data| < TWO32 && batch.cont[i] == ss[i].cont
    {
      assert batch.Shows(i, ss[i]);
    }
  }

  lemma {:induction false} SlotsPlaced(batch: Batch, ss: seq<Slot>, ws: seq<Csum.Window>)
    requires batch.Valid() && |ss| == |ws| == |batch.descs| && batch.ShowsAll(ss)
    requires forall i :: 0 <= i < |ss| ==> ws[i] == Csum.Window(batch.descs[i], |ss[i].data|)
    ensures Csum.Placed(ws, batch.region.Length)
  {
    forall i | 0 <= i < |ws|
      ensures ws[i].base + ws[i].len <= batch.region.Length
    {
      assert batch.Shows(i, ss[i]);
      batch.BufferInside(i);
    }
    forall i, j | 0 <= i < j < |ws|
      ensures Csum.Apart(ws[i], ws[j])
    {
      assert batch.Shows(i, ss[i]) && batch.Shows(j, ss[j]);
      batch.BuffersApart(i, j);
    }
  }

  /** The tail of a call: metadata of the filled slots, and their checksums finished in place. */
  method Settle(batch: Batch, ws: seq<Csum.Window>, chain: bool, vnet: bool, ghost ss: seq<Slot>)
    returns (offs: seq<Offload>, bad: nat)
    requires batch.Valid() && |ss| == |ws| == |batch.descs| && batch.ShowsAll(ss)
             && Csum.Placed(ws, batch.region.Length)
    requires forall i {:trigger ws[i]} :: 0 <= i < |ss| ==> ws[i] == Csum.Window(batch.descs[i], |ss[i].data|)
    modifies batch.region
    ensures SettledIn(batch.region[..], ws, offs, ss, chain, vnet)
    ensures !vnet ==> bad == 0
  {
    hide Batch.ShowsAll, Batch.Valid, Csum.Placed, Csum.SameOutside, Csum.Bads, Csum.Goals, SettledIn, Csum.Replaced;
    var got := |ws|;
    SlotsRead(batch, ss, ws);
    offs, bad := batch.offs[..got], 0;
    ghost var was, offs0 := batch.region[..], offs;
    if vnet {
      var conts := if chain then batch.cont[..got] else [];
      assert chain ==> conts == Conts(ss);
      offs, bad := Csum.CompleteOffloads(batch.region, ws, offs, conts);
      SettledByGoals(was, batch.region[..], ws, offs0, offs, conts, chain, ss);
    } else {
      SettledAsRead(was, ws, offs, ss, chain);
    }
  }

  /** What the batch shows of the slots, where they lie. */
  lemma {:induction false} SlotsRead(batch: Batch, ss: seq<Slot>, ws: seq<Csum.Window>)
    requires batch.Valid() && |ss| == |ws| == |batch.descs| && batch.ShowsAll(ss)
             && Csum.Placed(ws, batch.region.Length)
    requires forall i {:trigger ws[i]} :: 0 <= i < |ss| ==> ws[i] == Csum.Window(batch.descs[i], |ss[i].data|)
    ensures |ws| <= |batch.offs| == |batch.cont|
    ensures forall i {:trigger ss[i]} :: 0 <= i < |ss| ==>
              && batch.offs[i] == ss[i].off && batch.cont[i] == ss[i].cont
              && Csum.At(batch.region[..], ws[i]) == ss[i].data
  {
    forall i | 0 <= i < |ss|
      ensures batch.offs[i] == ss[i].off && batch.cont[i] == ss[i].cont
              && Csum.At(batch.region[..], ws[i]) == ss[i].data
    {
      assert batch.Shows(i, ss[i]);
      batch.BufferInside(i);
    }
  }

  /** The slots' windows and metadata hold what the slots come to. */
  ghost predicate SettledIn(mem: bytes, ws: seq<Csum.Window>, offs: seq<Offload>, ss: seq<Slot>, chain: bool,
                            vnet: bool) {
    && |offs| == |ws| == |ss|
    && forall i {:trigger ss[i]} :: 0 <= i < |ss| ==>
         && ws[i].base + ws[i].len <= |mem| && offs[i] == Settled(ss, chain, vnet, i).off
         && Csum.At(mem, ws[i]) == Settled(ss, chain, vnet, i).frame
  }

  lemma {:induction false} SettledAsRead(mem: bytes, ws: seq<Csum.Window>, offs: seq<Offload>, ss: seq<Slot>,
                                         chain: bool)
    requires Csum.Placed(ws, |mem|) && |offs| == |ws| == |ss|
    requires forall i {:trigger ss[i]} :: 0 <= i < |ss| ==> offs[i] == ss[i].off && Csum.At(mem, ws[i]) == ss[i].data
    ensures SettledIn(mem, ws, offs, ss, chain, false)
  {
    forall i | 0 <= i < |ss|
      ensures offs[i] == Settled(ss, chain, false, i).off && Csum.At(mem, ws[i]) == Settled(ss, chain, false, i).frame
    {
      assert ws[i].base + ws[i].len <= |mem|;
    }
  }

  /** Completing the windows settles the slots that lie in them. */
  lemma {:induction false} SettledByGoals(was: bytes, now: bytes, ws: seq<Csum.Window>, offs0: seq<Offload>,
                                          offs: seq<Offload>,
                                          conts: seq<bool>, chain: bool, ss: seq<Slot>)
    requires Csum.Placed(ws, |was|) && |offs0| == |offs| == |ws| == |ss| && conts == (if chain then Conts(ss) else [])
    requires forall i {:trigger ss[i]} :: 0 <= i < |ss| ==> offs0[i] == ss[i].off && Csum.At(was, ws[i]) == ss[i].data
    requires var goal := Csum.Goals(was, ws, offs0, conts);
             && Csum.Replaced(was, now, ws, Csum.FramesOf(goal), |ws|)
             && forall i {:trigger offs[i]} :: 0 <= i < |ws| ==> offs[i] == goal[i].off
    ensures SettledIn(now, ws, offs, ss, chain, true)
  {
    hide Csum.Complete, Csum.Chained, Csum.Goals;
    var goal := Csum.Goals(was, ws, offs0, conts);
    forall i | 0 <= i < |ss|
      ensures offs[i] == Settled(ss, chain, true, i).off && Csum.At(now, ws[i]) == Settled(ss, chain, true, i).frame
    {
      assert goal[i] == Csum.Complete(Csum.At(was, ws[i]), offs0[i], Csum.Chained(conts, i));
      assert Csum.FramesOf(goal)[i] == goal[i].frame;
    }
  }

  lemma {:induction false} KeptOK(g: Geometry, free: seq<nat>, n: nat)
    requires g.frameSize > 0 && ListOK(g, free) && NoDup(free)
    ensures ListOK(g, Kept(free, n)) && NoDup(Kept(free, n))
  {
  }

  /** Reader and kernel have followed the protocol with `steps`, and so the packets in `ss` were delivered. */
  ghost predicate Followed(reader: Reader, m: Mode, p: P.State, steps: seq<P.Step>, ss: seq<Slot>)
    requires reader.Valid()
    reads reader, reader.mem
  {
    && reader.Between() && P.Path(m, p, steps, reader.proto)
    && reader.proto.delivered == p.delivered + Packets(ss)
  }

  /** Reads the ring into the batch and gives back the frames it did not fill. */
  method Fetch(reader: Reader, batch: Batch, checked: bool, kernel: seq<seq<bytes>>)
    returns (got: nat, ghost ss: seq<Slot>, ghost steps: seq<P.Step>)
    requires reader.Working(reader.HowOpened(batch), kernel)
    requires reader.Valid() && batch.region != reader.mem && Holding(batch, []) && batch.Room() > 0
    requires |batch.start| <= batch.g.count && reader.Between()
    modifies reader, reader.mem, batch, batch.region
    ensures reader.Valid() && batch.Valid() && got == |ss| == |batch.descs| && batch.ShowsAll(ss)
    ensures reader.Between() && batch.free == Kept(batch.start, got)
    ensures var items, m := old(reader.Stream()) + P.Arrived(old(reader.proto), reader.proto), reader.HowOpened(batch);
            && ss == Filled(m, items, 0, batch.max, |batch.start|)
            && reader.Stream() == items[Consumed(m, items, 0, batch.max, |batch.start|)..]
            && Followed(reader, m, old(reader.proto), steps, ss)
  {
    hide Filled, Consumed, Oversize, BatchTooSmall, P.Path, P.Arrived, Packets, Reader.Between, Reader.Stream;
    hide Batch.ShowsAll, P.Inv;
    got, steps := reader.Read(batch, kernel);
    ss := Filled(reader.HowOpened(batch), old(reader.Stream()) + P.Arrived(old(reader.proto), reader.proto), 0,
        batch.max,
                 |batch.start|);
    AtMostNamed(batch, ss);
    GiveBack(batch, checked, got, ss);
  }

  lemma {:induction false} AtMostNamed(batch: Batch, ss: seq<Slot>)
    requires batch.ShowsAll(ss)
    ensures |ss| <= |batch.descs|
  {
  }

  /** When the packets of the slots arrived: on the slot that begins a packet, and nothing on the others. */
  ghost predicate Stamped(times: seq<nat>, ss: seq<Slot>) {
    |times| == |ss| && forall i {:trigger times[i]} :: 0 <= i < |ss| ==> times[i] == ss[i].time
  }

  method Stamps(batch: Batch, got: nat, ghost ss: seq<Slot>) returns (times: seq<nat>)
    requires batch.Valid() && got == |ss| == |batch.descs| && batch.ShowsAll(ss)
    ensures Stamped(times, ss)
  {
    times := batch.tss[..got];
    forall i | 0 <= i < got
      ensures times[i] == ss[i].time
    {
      assert batch.Shows(i, ss[i]);
    }
  }

  /** Names the filled slots and settles their checksums. */
  method Publish(batch: Batch, got: nat, chain: bool, vnet: bool, ghost ss: seq<Slot>)
    returns (descs: seq<Desc>, metas: seq<Offload>, bad: nat)
    requires batch.Valid() && got == |ss| == |batch.descs| && batch.ShowsAll(ss)
    modifies batch.region
    ensures HandsOut(batch.region[..], batch.start, ss, SettledAll(ss, chain, vnet), descs, metas)
  {
    hide Csum.Complete, Csum.Placed, Settled;
    var ws;
    descs, ws := Describe(batch, got, ss);
    metas, bad := Settle(batch, ws, chain, vnet, ss);
    forall i | 0 <= i < got
      ensures descs[i].addr + descs[i].len <= batch.region.Length && ws[i].base == descs[i].addr
              && ws[i].len == descs[i].len
    {
      assert Csum.At(batch.region[..], ws[i]) == Settled(ss, chain, vnet, i).frame;
    }
  }

  /** Output slices kept from call to call; what they hold is not cleared in between. */
  datatype Scratch = Scratch(lens: seq<nat>, offs: seq<Offload>, tss: seq<nat>)

  /** Makes them long enough for `max` slots. */
  function Grown(s: Scratch, max: nat): (r: Scratch)
    ensures |r.lens| >= max && |r.offs| >= max && |r.tss| >= max
  {
    Scratch(if |s.lens| < max then seq(max, _ => 0) else s.lens,
            if |s.offs| < max then seq(max, _ => NONE) else s.offs,
            if |s.tss| < max then seq(max, _ => 0) else s.tss)
  }

  /** One whole call on a batch of its own. */
  method Serve(reader: Reader, region: array<u8>, g: Geometry, checked: bool, free0: seq<nat>, max: nat,
               s: Scratch, kernel: seq<seq<bytes>>)
    returns (descs: seq<Desc>, metas: seq<Offload>, times: seq<nat>, bad: nat, free: seq<nat>, ghost ss: seq<Slot>,
             ghost steps: seq<P.Step>)
    requires g.Valid() && 2 * HEADROOM <= g.frameSize <= TWO32 && g.End() <= region.Length
    requires ListOK(g, free0) && NoDup(free0) && reader.Valid() && reader.Between() && reader.mem != region
    requires |s.lens| >= max && |s.offs| >= max && |s.tss| >= max
    requires reader.Working(Mode(reader.chain, g.frameSize - HEADROOM), kernel)
    modifies reader, reader.mem, region
    ensures reader.Valid() && reader.Between() && free == Kept(free0, |ss|)
    ensures HandsOut(region[..], free0, ss, SettledAll(ss, reader.chain, reader.vnet), descs, metas)
            && Stamped(times, ss)
    ensures var items, m := old(reader.Stream()) + P.Arrived(old(reader.proto), reader.proto),
                            Mode(reader.chain, g.frameSize - HEADROOM);
            && ss == Filled(m, items, 0, max, |free0|)
            && reader.Stream() == items[Consumed(m, items, 0, max, |free0|)..]
            && Followed(reader, m, old(reader.proto), steps, ss)
  {
    hide Filled, Consumed, HandsOut, SettledAll, Followed, Reader.Stream, Reader.Between, Stamped, P.Inv, P.Arrived;
    ghost var items, m := reader.Stream(), Mode(reader.chain, g.frameSize - HEADROOM);
    var batch := new Batch(region, g, free0, max, s.lens[..max], s.offs[..max], s.tss[..max]);
    assert reader.Stream() == items && reader.HowOpened(batch) == m;
    var got;
    got, ss, steps := Fetch(reader, batch, checked, kernel);
    ghost var left := reader.Stream();
    times := Stamps(batch, got, ss);
    descs, metas, bad := Publish(batch, got, reader.chain, reader.vnet, ss);
    free := batch.free;
    assert reader.Stream() == left;
  }

  class Queue {
    const region: array<u8>
    const g: Geometry
    const checked: bool
    const reader: Reader
    var free: seq<nat>
    var scratch: Scratch
    var closed: bool
    var badCsum: nat

    ghost predicate Valid()
      reads this, reader, reader.mem
    {
      && g.Valid() && 2 * HEADROOM <= g.frameSize <= TWO32 && g.End() <= region.Length
      && ListOK(g, free) && NoDup(free) && reader.Valid() && reader.Between() && reader.mem != region
    }

    constructor (region: array<u8>, g: Geometry, checked: bool, reader: Reader)
      requires g.Valid() && 2 * HEADROOM <= g.frameSize <= TWO32 && g.End() <= region.Length
      requires reader.Valid() && reader.Between() && reader.mem != region
      ensures Valid() && this.region == region && this.reader == reader && free == Full(g) && !closed
    {
      this.region, this.g, this.checked, this.reader := region, g, checked, reader;
      free, scratch := Full(g), Scratch([], [], []);
      closed, badCsum := false, 0;
      FullOK(g);
    }

    /**
     One call, while the kernel fills the blocks `kernel`. What it hands out is what the ring
     had ready and what arrived in time, as `Filled` says; the free list has lost exactly the frames handed out,
        from its end, in order.
     */
    method Receive(max: int, kernel: seq<seq<bytes>>)
      returns (descs: seq<Desc>, metas: seq<Offload>, times: seq<nat>, ghost steps: seq<P.Step>)
      requires Valid() && reader.Working(HowOpened(), kernel)
      modifies this, reader, reader.mem, region
      ensures Valid()
      ensures closed || max <= 0 ==>
                && descs == [] && metas == [] && times == [] && free == old(free)
                && reader.Stream() == old(reader.Stream())
      ensures closed || max <= 0 ==> reader.proto == old(reader.proto)
      ensures !closed && max > 0 ==>
                var items, m := old(reader.Stream()) + P.Arrived(old(reader.proto), reader.proto), HowOpened();
                var ss := Filled(m, items, 0, max, |old(free)|);
                   && HandsOut(region[..], old(free), ss, SettledAll(ss, reader.chain, reader.vnet), descs, metas)
                      && Stamped(times, ss)
                   && free == Kept(old(free), |ss|)
                   && reader.Stream() == items[Consumed(m, items, 0, max, |old(free)|)..]
                   && Followed(reader, m, old(reader.proto), steps, ss)
      ensures closed == old(closed)
      ensures P.Inv(HowOpened(), old(reader.proto)) ==> P.Inv(HowOpened(), reader.proto)
    {
      hide Filled, Consumed, HandsOut, SettledAll, ListOK, P.Path, P.Arrived, P.Inv, Packets, Stamped;
      descs, metas, times, steps := [], [], [], [];
      if !closed && max > 0 {
        ghost var p := reader.proto;
        descs, metas, times, steps := ReceiveOpen(max, kernel);
        if P.Inv(HowOpened(), p) {
          P.PathKeeps(HowOpened(), p, steps, reader.proto);
        }
      }
    }

    /** Whether packets are chained, and how much a frame holds. */
    ghost function HowOpened(): Mode {
      Mode(reader.chain, if g.frameSize >= HEADROOM then g.frameSize - HEADROOM else 0)
    }

    method ReceiveOpen(max: nat, kernel: seq<seq<bytes>>)
      returns (descs: seq<Desc>, metas: seq<Offload>, times: seq<nat>, ghost steps: seq<P.Step>)
      requires Valid() && reader.Working(HowOpened(), kernel)
      modifies this`free, this`scratch, this`badCsum, reader, reader.mem, region
      ensures Valid()
      ensures var items, m := old(reader.Stream()) + P.Arrived(old(reader.proto), reader.proto), HowOpened();
              var ss := Filled(m, items, 0, max, |old(free)|);
              && HandsOut(region[..], old(free), ss, SettledAll(ss, reader.chain, reader.vnet), descs, metas)
                 && Stamped(times, ss)
              && free == Kept(old(free), |ss|)
              && reader.Stream() == items[Consumed(m, items, 0, max, |old(free)|)..]
              && Followed(reader, m, old(reader.proto), steps, ss)
    {
      hide Filled, Consumed, HandsOut, SettledAll, Followed, Reader.Stream, Reader.Between, ListOK, NoDup;
      hide Grown, Stamped, P.Inv, P.Arrived;
      var s := Grown(scratch, max);
      var bad, left;
      ghost var ss;
      descs, metas, times, bad, left, ss, steps := Serve(reader, region, g, checked, free, max, s, kernel);
      KeptOK(g, free, |ss|);
      ghost var mem, stream := region[..], reader.Stream();
      free, badCsum, scratch := left, badCsum + bad, s;
      assert region[..] == mem && reader.Stream() == stream;
    }

    /**
     Takes frames back. The bitmap refuses one that is there already; without it the list
     is a proper one afterwards if no frame is given back twice.
     */
    method Recycle(descs: seq<Desc>)
      requires Valid()
      modifies this`free
      ensures free == GiveAll(g, checked, old(free), descs) && ListOK(g, free) && (Valid() <==> NoDup(free))
      ensures checked || NoDup(old(free) + FramesOf(g, descs)) ==> Valid()
    {
      hide GiveAll, Pushed, NoDup;
      assert descs[..0] == [] && descs[..|descs|] == descs;
      NothingGiven(g, checked, free);
      for i := 0 to |descs|
        invariant ListOK(g, free) && free == GiveAll(g, checked, old(free), descs[..i])
      {
        GiveOne(g, checked, old(free), descs, i);
        PushedOK(g, checked, free, FrameStart(descs[i].addr, g.frameSize));
        free := Pushed(g, checked, free, FrameStart(descs[i].addr, g.frameSize));
      }
      if checked || NoDup(old(free) + FramesOf(g, descs)) {
        GivenProper(g, checked, old(free), descs);
      }
    }
  }

  lemma {:induction false} NothingGiven(g: Geometry, checked: bool, free: seq<nat>)
    requires IsPow2(g.frameSize)
    ensures GiveAll(g, checked, free, []) == free
  {
  }

  lemma {:induction false} GivenProper(g: Geometry, checked: bool, free: seq<nat>, ds: seq<Desc>)
    requires IsPow2(g.frameSize) && NoDup(free) && (checked || NoDup(free + FramesOf(g, ds)))
    ensures NoDup(GiveAll(g, checked, free, ds))
  {
    GivenOnce(g, checked, free, FramesOf(g, ds));
  }

  lemma {:induction false} PushedOK(g: Geometry, checked: bool, free: seq<nat>, f: nat)
    requires g.frameSize > 0 && ListOK(g, free)
    ensures ListOK(g, Pushed(g, checked, free, f))
  {
  }

  /** No frame is on the list twice, if the bitmap is there or none was given twice. */
  lemma {:induction false} GivenOnce(g: Geometry, checked: bool, free: seq<nat>, fs: seq<nat>)
    requires g.frameSize > 0 && NoDup(free) && (checked || NoDup(free + fs))
    ensures var now := PushedAll(g, checked, free, fs);
            NoDup(now) && forall f :: f in now ==> f in free + fs
    decreases |fs|
  {
    if fs != [] {
      var pre, f := fs[..|fs| - 1], fs[|fs| - 1];
      assert free + fs == (free + pre) + [f];
      if !checked {
        FrontNoDup(free + pre, [f]);
      }
      GivenOnce(g, checked, free, pre);
      if !checked {
        LastIsNew(free + pre, f);
      }
    }
  }

  lemma {:induction false} LastIsNew(a: seq<nat>, x: nat)
    requires NoDup(a + [x])
    ensures x !in a
  {
    forall i | 0 <= i < |a|
      ensures a[i] != x
    {
      assert (a + [x])[i] == a[i] && (a + [x])[|a|] == x;
    }
  }

  lemma {:induction false} FrontNoDup(a: seq<nat>, b: seq<nat>)
    requires NoDup(a + b)
    ensures NoDup(a)
  {
    forall i, j | 0 <= i < j < |a|
      ensures a[i] != a[j]
    {
      assert (a + b)[i] == a[i] && (a + b)[j] == a[j];
    }
  }
}
