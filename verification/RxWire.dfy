/**
 From the wire to the application: over every run of kernel and reader, and for one call
 on a mapping full of packets, what is delivered is what was on the wire.
 */
module RxWire {
  import opened Words
  import opened Bytes
  import opened Offloads
  import opened Tpacket
  import opened TpacketLayout
  import opened RxBatch
  import opened RxSpread
  import opened RxRing
  import P = TpacketProtocol

  // ------------------------------------------------------------- over every run

  /** Packets of several blocks, in order. */
  function Flat(pss: seq<seq<Sent>>): seq<Sent>
    decreases |pss|
  {
    if pss == [] then [] else Flat(pss[..|pss| - 1]) + pss[|pss| - 1]
  }

  lemma {:induction false} ItemsJoin(vnet: bool, a: seq<Sent>, b: seq<Sent>)
    requires AllValid(a) && AllValid(b)
    ensures AllValid(a + b) && ItemsOf(vnet, a + b) == ItemsOf(vnet, a) + ItemsOf(vnet, b)
    decreases |a|
  {
    hide ItemOf, Sent.Valid;
    if a == [] {
      assert a + b == b;
    } else {
      assert (a + b)[1..] == a[1..] + b;
      ItemsJoin(vnet, a[1..], b);
    }
  }

  lemma {:induction false} ItemsAt(vnet: bool, ps: seq<Sent>, k: nat)
    requires AllValid(ps) && k < |ps|
    ensures ItemsOf(vnet, ps)[k] == ItemOf(vnet, ps[k])
  {
    hide ItemOf, Sent.Valid;
    if k > 0 {
      ItemsAt(vnet, ps[1..], k - 1);
    }
  }

  /** Each block the kernel fills in a run holds packets; `pss` has them, step by step. */
  ghost predicate Fills(vnet: bool, steps: seq<P.Step>, pss: seq<seq<Sent>>) {
    && |pss| == |steps|
    && forall i {:trigger steps[i]} :: 0 <= i < |steps| ==>
         && AllValid(pss[i])
         && (if steps[i].KernelFill? then steps[i].items == ItemsOf(vnet, pss[i]) else pss[i] == [])
  }

  /** What has been published are the packets of the blocks filled. */
  lemma {:induction false} PublishedAre(m: Mode, vnet: bool, states: seq<P.State>, steps: seq<P.Step>,
                                        pss: seq<seq<Sent>>, k: nat)
    requires P.IsRun(m, states, steps) && Fills(vnet, steps, pss) && k <= |steps|
    ensures AllValid(Flat(pss[..k])) && states[k].published == ItemsOf(vnet, Flat(pss[..k]))
  {
    hide ItemOf, Sent.Valid;
    if k > 0 {
      PublishedAre(m, vnet, states, steps, pss, k - 1);
      assert pss[..k][..k - 1] == pss[..k - 1];
      var step := steps[k - 1];
      assert states[k] == P.Next(m, states[k - 1], step);
      ItemsJoin(vnet, Flat(pss[..k - 1]), pss[k - 1]);
      if !step.KernelFill? {
        assert ItemsOf(vnet, Flat(pss[..k - 1])) + [] == ItemsOf(vnet, Flat(pss[..k - 1]));
      }
    }
  }

  /** The bytes of the packets that were given, in order. */
  ghost function Wires(ps: seq<Sent>, log: seq<P.Fate>): seq<bytes>
    requires |log| <= |ps|
    decreases |log|
  {
    if log == [] then []
    else
      var n := |log| - 1;
      Wires(ps, log[..n]) + if log[n].given then [ps[n].wire] else []
  }

  /** A packet the application can be given by a call of `max` slots: whole, and not too long for it. */
  predicate Fitting(m: Mode, p: Sent, max: nat)
    requires m.room > 0
  {
    p.Whole() && (|p.wire| <= m.room || (m.chain && (|p.wire| + m.room - 1) / m.room <= max))
  }

  /**
   Over every run of kernel and reader: the packets dealt with are the first of those that were on the
   wire, in order; each was given if it fits the call that dealt with it and counted
   oversize if not; what was delivered is the bytes of those given; and the rest is waiting.
   */
  lemma {:induction false} WireToApplication(m: Mode, vnet: bool, states: seq<P.State>, steps: seq<P.Step>,
                                             pss: seq<seq<Sent>>, k: nat)
    requires P.IsRun(m, states, steps) && Fills(vnet, steps, pss) && k <= |steps| && m.room > 0
    ensures P.Inv(m, states[k])
    ensures var ps, log := Flat(pss[..k]), states[k].log;
            && AllValid(ps) && |log| <= |ps| && states[k].delivered == Wires(ps, log)
            && (forall i {:trigger log[i]} :: 0 <= i < |log| ==> (log[i].given <==> Fitting(m, ps[i], log[i].when.max)))
            && P.Pending(states[k], 0) == ItemsOf(vnet, ps[|log|..])
  {
    hide ItemOf, Sent.Valid, ItemsOf, Flat, P.Pending, P.Seen, P.Enabled, P.Next, P.Initial;
    P.NothingLostOrRepeated(m, states, steps, k);
    PublishedAre(m, vnet, states, steps, pss, k);
    var s, ps := states[k], Flat(pss[..k]);
    SeenAre(vnet, ps, s.log, P.Pending(s, 0));
    forall i | 0 <= i < |s.log|
      ensures s.log[i].given <==> Fitting(m, ps[i], s.log[i].when.max)
    {
      assert P.Justified(m, s.log[i]);
      FittingIs(m, vnet, ps[i], s.log[i].when.max);
    }
    GivenAre(m, vnet, ps, s.log);
  }

  lemma {:induction false} SeenAre(vnet: bool, ps: seq<Sent>, log: seq<P.Fate>, pending: seq<Item>)
    requires AllValid(ps) && ItemsOf(vnet, ps) == P.Seen(log) + pending
    ensures |log| <= |ps| && AllValid(ps[|log|..]) && pending == ItemsOf(vnet, ps[|log|..])
    ensures forall i {:trigger log[i]} :: 0 <= i < |log| ==> log[i].item == ItemOf(vnet, ps[i])
  {
    hide ItemOf, Sent.Valid;
    var n := |log|;
    assert |ItemsOf(vnet, ps)| == |ps|;
    ItemsJoin(vnet, ps[..n], ps[n..]);
    assert ps == ps[..n] + ps[n..];
    assert pending == ItemsOf(vnet, ps)[n..];
    forall i | 0 <= i < n
      ensures log[i].item == ItemOf(vnet, ps[i])
    {
      assert log[i].item == P.Seen(log)[i] == ItemsOf(vnet, ps)[i];
      ItemsAt(vnet, ps, i);
    }
  }

  lemma {:induction false} FittingIs(m: Mode, vnet: bool, p: Sent, max: nat)
    requires m.room > 0 && p.Valid()
    ensures P.Deliverable(m, ItemOf(vnet, p), max) <==> Fitting(m, p, max)
    ensures p.Whole() ==> ItemOf(vnet, p).wire == p.wire
  {
    if p.Whole() {
      WholeWire(p);
    }
  }

  lemma {:induction false} WholeWire(p: Sent)
    requires p.Valid() && p.Whole()
    ensures p.wire[..if p.stripped then p.snap + 4 else p.snap] == p.wire
  {
  }

  lemma {:induction false} GivenAre(m: Mode, vnet: bool, ps: seq<Sent>, log: seq<P.Fate>)
    requires m.room > 0 && AllValid(ps) && |log| <= |ps|
    requires forall i {:trigger log[i]} :: 0 <= i < |log| ==> log[i].item == ItemOf(vnet, ps[i])
    requires forall i {:trigger log[i]} :: 0 <= i < |log| ==> (log[i].given <==> Fitting(m, ps[i], log[i].when.max))
    ensures P.Given(log) == Wires(ps, log)
    decreases |log|
  {
    if log != [] {
      var n := |log| - 1;
      GivenAre(m, vnet, ps, log[..n]);
      assert log[n].item == ItemOf(vnet, ps[n]);
      FittingIs(m, vnet, ps[n], log[n].when.max);
    }
  }

  // --------------------------------------------------------------- in one call

  /** The blocks from the reader's on hold these packets, block by block, and the next is the kernel's. */
  ghost predicate Waiting(reader: Reader, pss: seq<seq<Sent>>)
    requires reader.Valid()
    reads reader`block, reader.mem
  {
    && |pss| <= reader.nr
    && (forall j {:trigger pss[j]} :: 0 <= j < |pss| ==>
          BlockHolds(BlockOf(reader.mem[..], reader.size, reader.nr, Past(reader.block, j, reader.nr)), reader.vnet,
             pss[j]))
    && (|pss| < reader.nr ==>
          !Ready(BlockOf(reader.mem[..], reader.size, reader.nr, Past(reader.block, |pss|, reader.nr))))
  }

  /** Packets of several blocks, first block first. */
  function Front(pss: seq<seq<Sent>>): seq<Sent> {
    if pss == [] then [] else pss[0] + Front(pss[1..])
  }

  /** What a reader between blocks could read are those packets. */
  lemma {:induction false} StreamHolds(reader: Reader, pss: seq<seq<Sent>>)
    requires reader.Valid() && !reader.pending && Waiting(reader, pss)
    ensures AllValid(Front(pss)) && reader.Stream() == ItemsOf(reader.vnet, Front(pss))
  {
    hide BlockHolds, Ready, BlockItems, Ahead, BlockOf;
    reader.WholeTurn();
    assert Past(reader.block, 0, reader.nr) == reader.block;
    AheadHolds(reader.mem[..], reader.size, reader.nr, reader.vnet, reader.block, pss, reader.nr);
  }

  lemma {:induction false} AheadHolds(mem: bytes, size: nat, nr: nat, vnet: bool, i: nat, pss: seq<seq<Sent>>, k: nat)
    requires size >= BLOCK_HDR && |mem| == Times(nr, size) && i < nr && |pss| <= k <= nr
    requires forall j {:trigger pss[j]} :: 0 <= j < |pss| ==>
             BlockHolds(BlockOf(mem, size, nr, Past(i, j, nr)), vnet, pss[j])
    requires |pss| < k ==> !Ready(BlockOf(mem, size, nr, Past(i, |pss|, nr)))
    ensures AllValid(Front(pss)) && Ahead(Split(mem, size, nr, vnet), i, k) == ItemsOf(vnet, Front(pss))
    decreases k
  {
    hide BlockHolds, Ready, BlockItems, BlockOf, ItemOf, Sent.Valid;
    var bs := Split(mem, size, nr, vnet);
    assert Past(i, 0, nr) == i;
    assert bs[i] == View(BlockOf(mem, size, nr, i), vnet);
    if pss != [] {
      var next := Past(i, 1, nr);
      assert BlockHolds(BlockOf(mem, size, nr, Past(i, 0, nr)), vnet, pss[0]);
      BlockShows(BlockOf(mem, size, nr, i), vnet, pss[0]);
      forall j | 0 <= j < |pss[1..]|
        ensures BlockHolds(BlockOf(mem, size, nr, Past(next, j, nr)), vnet, pss[1..][j])
      {
        PastOne(i, j, nr);
        assert BlockHolds(BlockOf(mem, size, nr, Past(i, j + 1, nr)), vnet, pss[j + 1]);
      }
      PastOne(i, |pss| - 1, nr);
      AheadHolds(mem, size, nr, vnet, next, pss[1..], k - 1);
      ItemsJoin(vnet, pss[0], Front(pss[1..]));
    }
  }

  lemma {:induction false} PastOne(i: nat, j: nat, nr: nat)
    requires i < nr && j < nr
    ensures Past(Past(i, 1, nr), j, nr) == Past(i, j + 1, nr)
  {
  }

  /** One slot a packet. */
  function OneEach(vnet: bool, ps: seq<Sent>): (ss: seq<Slot>)
    ensures |ss| == |ps|
  {
    if ps == [] then []
    else [Slot(ps[0].wire, false, if vnet then ps[0].meta else NONE, ps[0].sec * 1_000_000_000 + ps[0].nsec)]
         + OneEach(vnet, ps[1..])
  }

  ghost predicate AllSmall(ps: seq<Sent>, room: nat) {
    forall i {:trigger ps[i]} :: 0 <= i < |ps| ==> ps[i].Valid() && ps[i].Whole() && |ps[i].wire| <= room
  }

  /** A call with slots and frames for all of them gives every packet, in a slot of its own, and leaves none. */
  lemma {:induction false} AllGiven(m: Mode, vnet: bool, ps: seq<Sent>, out: nat, max: nat, avail: nat)
    requires m.room > 0 && AllSmall(ps, m.room) && out + |ps| <= Min(max, avail)
    ensures AllValid(ps)
    ensures Filled(m, ItemsOf(vnet, ps), out, max, avail) == OneEach(vnet, ps)
    ensures Consumed(m, ItemsOf(vnet, ps), out, max, avail) == |ps|
    decreases |ps|
  {
    hide Sent.Valid, Sent.Whole, SlotsOf, Pieces, Judge;
    if ps != [] {
      assert ps[0].Valid() && ps[0].Whole() && |ps[0].wire| <= m.room;
      FittingIs(m, vnet, ps[0], max);
      var item := ItemOf(vnet, ps[0]);
      SmallGiven(m, vnet, ps[0], out, max, avail);
      OneSlot(item, m.room);
      AllGiven(m, vnet, ps[1..], out + 1, max, avail);
      assert ItemsOf(vnet, ps)[1..] == ItemsOf(vnet, ps[1..]);
    }
  }

  lemma {:induction false} SmallGiven(m: Mode, vnet: bool, p: Sent, out: nat, max: nat, avail: nat)
    requires m.room > 0 && p.Valid() && p.Whole() && |p.wire| <= m.room && out < Min(max, avail)
    ensures Judge(m, ItemOf(vnet, p), out, max, avail) == Give(1)
  {
    WholeWire(p);
  }

  /** So reads a reader that finds such packets waiting: each is in its slot, and the ring is empty. */
  method ReadAll(reader: Reader, batch: Batch, ghost pss: seq<seq<Sent>>) returns (out: nat, ghost steps: seq<P.Step>)
    requires reader.Valid() && reader.Between() && !reader.pending && Waiting(reader, pss)
    requires batch.region != reader.mem && Holding(batch, []) && AllSmall(Front(pss), batch.Room())
    requires batch.Room() > 0 && |Front(pss)| <= Min(batch.max, |batch.start|)
    modifies reader, reader.mem, batch, batch.region
    ensures reader.Valid() && reader.Between() && batch.Valid() && out == |Front(pss)|
    ensures batch.ShowsAll(OneEach(reader.vnet, Front(pss))) && reader.Stream() == []
  {
    hide Filled, Consumed, ItemsOf, OneEach, Reader.Between, Reader.Stream, Holding, Batch.Valid;
    hide Batch.ShowsAll, AllSmall;
    hide Front, Waiting, P.Path, Packets, AllValid;
    StreamHolds(reader, pss);
    AllGiven(reader.HowOpened(batch), reader.vnet, Front(pss), 0, batch.max, |batch.start|);
    ghost var items := reader.Stream();
    out, steps := reader.Read(batch, []);
    NothingArrived(reader.HowOpened(batch), old(reader.proto), steps, reader.proto);
    assert items + [] == items;
  }

  lemma {:induction false} NothingArrived(m: Mode, s: P.State, steps: seq<P.Step>, t: P.State)
    requires P.Path(m, s, steps, t) && P.OfReader(steps)
    ensures P.Arrived(s, t) == []
  {
    P.PathPublishes(m, s, steps, t);
  }
}
