/**
 The mapped TPACKET_V3 receive ring and its resumable cursor. Its bytes are arbitrary;
 each load below is shown to lie inside the block the reader is on, and each call to
 be a sequence of steps of the protocol.
 */
module RxRing {
  import opened Words
  import opened Bytes
  import opened Offloads
  import opened Tpacket
  import opened RxBatch
  import opened RxSpread
  import opened P = TpacketProtocol

  lemma {:induction false} BlockFits(i: nat, nr: nat, size: nat)
    requires i < nr
    ensures Times(i, size) + size <= Times(nr, size)
    decreases nr
  {
    if i + 1 < nr {
      BlockFits(i, nr - 1, size);
    }
  }

  function BlockOf(mem: bytes, size: nat, nr: nat, i: nat): (blk: bytes)
    requires |mem| == Times(nr, size) && i < nr
    ensures |blk| == size
  {
    BlockFits(i, nr, size);
    mem[Times(i, size)..Times(i, size) + size]
  }

  /** Inside the mapping the reader's 32-bit address sums do not wrap. */
  lemma {:induction false} NoWrap(i: nat, nr: nat, size: nat, off: nat)
    requires i < nr && Times(nr, size) < TWO32 && off <= size
    ensures Wrap32(Wrap32(i * size) + off) == Times(i, size) + off && i * size == Times(i, size)
  {
    TimesIs(i, size);
    BlockFits(i, nr, size);
  }

  /** What a block is to the reader: the kernel's, or its own with these items. */
  ghost function View(blk: bytes, vnet: bool): Block
    requires |blk| >= BLOCK_HDR
  {
    if Ready(blk) then User(BlockItems(blk, vnet)) else Kernel
  }

  /** The mapping, block by block. */
  ghost function Split(mem: bytes, size: nat, nr: nat, vnet: bool): (bs: seq<Block>)
    requires size >= BLOCK_HDR && |mem| == Times(nr, size)
    ensures |bs| == nr && forall i :: 0 <= i < nr ==> bs[i] == View(BlockOf(mem, size, nr, i), vnet)
  {
    seq(nr, i requires 0 <= i < nr => View(BlockOf(mem, size, nr, i), vnet))
  }

  /** The block `k` after `i`, less than a turn of the ring away. */
  function Past(i: nat, k: nat, nr: nat): (j: nat)
    requires i < nr && k <= nr
    ensures j < nr
  {
    if i + k < nr then i + k else i + k - nr
  }

  lemma {:induction false} PastIsMod(i: nat, nr: nat)
    requires i < nr
    ensures (i + 1) % nr == Past(i, 1, nr)
  {
    if i + 1 < nr {
      ModUnique(i + 1, nr, 0, i + 1);
    } else {
      ModUnique(i + 1, nr, 1, 0);
    }
  }

  /** The items of up to `k` of the reader's blocks from block `i` on, round the ring. */
  ghost function Ahead(bs: seq<Block>, i: nat, k: nat): seq<Item>
    requires i < |bs|
    decreases k
  {
    if k == 0 || bs[i].Kernel? then [] else bs[i].items + Ahead(bs, Past(i, 1, |bs|), k - 1)
  }

  /** How many blocks those are. */
  ghost function ReadyAhead(bs: seq<Block>, i: nat, k: nat): nat
    requires i < |bs|
    decreases k
  {
    if k == 0 || bs[i].Kernel? then 0 else 1 + ReadyAhead(bs, Past(i, 1, |bs|), k - 1)
  }

  /** From the block after one handed back, a whole turn of the ring sees what was ahead of it. */
  lemma {:induction false} AheadAfter(bs: seq<Block>, b: nat, i: nat, k: nat)
    requires b < |bs| && i < |bs| && k < |bs| && Past(i, k, |bs|) == b
    ensures Ahead(bs[b := Kernel], i, k + 1) == Ahead(bs, i, k)
    ensures ReadyAhead(bs[b := Kernel], i, k + 1) == ReadyAhead(bs, i, k)
    decreases k
  {
    if k > 0 {
      AheadAfter(bs, b, Past(i, 1, |bs|), k - 1);
    }
  }

  /** Storing the kernel's status word in block `b` gives that block back and touches no other. */
  lemma {:induction false} GivenBack(mem: bytes, size: nat, nr: nat, vnet: bool, b: nat)
    requires size >= BLOCK_HDR && |mem| == Times(nr, size) && b < nr && Times(b, size) + OFF_STATUS + 4 <= |mem|
    ensures Split(Splice(mem, Times(b, size) + OFF_STATUS, [0, 0, 0, 0]), size, nr, vnet)
            == Split(mem, size, nr, vnet)[b := Kernel]
  {
    hide Splice, Ready, BlockItems;
    var now, zero: bytes := Splice(mem, Times(b, size) + OFF_STATUS, [0, 0, 0, 0]), [0, 0, 0, 0];
    forall j | 0 <= j < nr
      ensures Split(now, size, nr, vnet)[j] == Split(mem, size, nr, vnet)[b := Kernel][j]
    {
      if j == b {
        NotReady(mem, size, nr, b);
      } else {
        OtherBlock(mem, size, nr, b, j, OFF_STATUS, zero);
      }
    }
  }

  lemma {:induction false} NotReady(mem: bytes, size: nat, nr: nat, b: nat)
    requires size >= BLOCK_HDR && |mem| == Times(nr, size) && b < nr && Times(b, size) + OFF_STATUS + 4 <= |mem|
    ensures !Ready(BlockOf(Splice(mem, Times(b, size) + OFF_STATUS, [0, 0, 0, 0]), size, nr, b))
  {
    var zero: bytes, at := [0, 0, 0, 0], Times(b, size);
    var now := Splice(mem, at + OFF_STATUS, zero);
    BlockFits(b, nr, size);
    assert now[at + 8] == 0 && now[at + 9] == 0 && now[at + 10] == 0 && now[at + 11] == 0;
  }

  /** A write inside block `b` leaves the other blocks alone. */
  lemma {:induction false} OtherBlock(mem: bytes, size: nat, nr: nat, b: nat, j: nat, k: nat, s: bytes)
    requires |mem| == Times(nr, size) && b < nr && j < nr && j != b && k + |s| <= size
             && Times(b, size) + k + |s| <= |mem|
    ensures BlockOf(Splice(mem, Times(b, size) + k, s), size, nr, j) == BlockOf(mem, size, nr, j)
  {
    hide Splice;
    BlockFits(b, nr, size);
    BlockFits(j, nr, size);
    if j < b {
      BlockFits(j, b, size);
    } else {
      BlockFits(b, j, size);
    }
    SpliceApart(mem, Times(b, size) + k, s, Times(j, size), Times(j, size) + size);
  }

  /** A block written whole is what was written, and the others are as they were. */
  lemma {:induction false} BlockWritten(mem: bytes, size: nat, nr: nat, vnet: bool, b: nat, data: bytes)
    requires size >= BLOCK_HDR && |mem| == Times(nr, size) && b < nr && |data| == size && Times(b, size) + size <= |mem|
    ensures Split(Splice(mem, Times(b, size), data), size, nr, vnet)
            == Split(mem, size, nr, vnet)[b := View(data, vnet)]
    ensures forall j {:trigger BlockOf(mem, size, nr, j)} :: 0 <= j < nr && j != b ==>
              BlockOf(Splice(mem, Times(b, size), data), size, nr, j) == BlockOf(mem, size, nr, j)
  {
    hide Splice, View;
    var now := Splice(mem, Times(b, size), data);
    SpliceOwn(mem, Times(b, size), data);
    forall j | 0 <= j < nr && j != b
      ensures BlockOf(now, size, nr, j) == BlockOf(mem, size, nr, j)
    {
      OtherBlock(mem, size, nr, b, j, 0, data);
    }
    assert BlockOf(now, size, nr, b) == data;
  }

  /** A block that becomes the reader's adds to what is ahead and takes nothing away. */
  lemma {:induction false} AheadMore(bs: seq<Block>, j: nat, now: Block, i: nat, k: nat)
    requires j < |bs| && bs[j].Kernel? && i < |bs|
    ensures Ahead(bs, i, k) <= Ahead(bs[j := now], i, k)
    decreases k
  {
    if k > 0 && bs[i].User? {
      AheadMore(bs, j, now, Past(i, 1, |bs|), k - 1);
    }
  }

  // ----------------------------------------------------------------- reading

  /** A header read from its own 48 bytes is the header read in place. */
  lemma {:induction false} HdrOfSlice(blk: bytes, off: nat)
    requires off + FRAME_HDR <= |blk|
    ensures ReadHdr(blk[off..off + FRAME_HDR], 0) == ReadHdr(blk, off)
  {
    SliceOfSlice(blk, off, FRAME_HDR, OFF_NEXT, 4);
    SliceOfSlice(blk, off, FRAME_HDR, OFF_SEC, 4);
    SliceOfSlice(blk, off, FRAME_HDR, OFF_NSEC, 4);
    SliceOfSlice(blk, off, FRAME_HDR, OFF_SNAPLEN, 4);
    SliceOfSlice(blk, off, FRAME_HDR, OFF_LEN, 4);
    SliceOfSlice(blk, off, FRAME_HDR, OFF_FRAME_STATUS, 4);
    SliceOfSlice(blk, off, FRAME_HDR, OFF_MAC, 2);
    SliceOfSlice(blk, off, FRAME_HDR, OFF_VLAN_TCI, 4);
    SliceOfSlice(blk, off, FRAME_HDR, OFF_VLAN_TPID, 2);
  }

  /** The block `blk` lies at `base` of the mapping, and is the reader's. */
  ghost predicate Mine(mem: array<u8>, base: nat, blk: bytes)
    reads mem
  {
    base + |blk| <= mem.Length && blk == mem[base..base + |blk|] && |blk| >= BLOCK_HDR && Ready(blk)
  }

  /**
   A load of `n` bytes at `at`. Its precondition is the safety claim: the block
   is the reader's, and the bytes lie inside it.
   */
  method Load(mem: array<u8>, ghost base: nat, ghost blk: bytes, at: nat, n: nat) returns (s: bytes)
    requires Mine(mem, base, blk) && base <= at && at + n <= base + |blk|
    ensures s == blk[at - base..at - base + n]
  {
    s := mem[at..at + n];
    SliceOfSlice(mem[..], base, |blk|, at - base, n);
    assert mem[..][base..base + |blk|] == blk;
    assert mem[..][at..at + n] == s;
  }

  /** The packet behind a header, as the pieces of memory it is copied from, and its metadata. */
  method Segments(mem: array<u8>, ghost base: nat, ghost blk: bytes, vnet: bool, off: u32, h: Hdr, at: nat)
    returns (segs: seq<bytes>, o: Offload)
    requires Mine(mem, base, blk) && at == base + off && off <= |blk| && FrameFits(vnet, |blk|, off, h)
    ensures Join(segs) == Wire(blk, vnet, off, h) && o == OffloadAt(blk, vnet, off, h)
    ensures |segs| == 1 || |segs| == 3
    ensures |Join(segs)| > 16 ==> forall i :: 0 <= i < |segs| ==> segs[i] != []
  {
    hide Unmarshal, Tag, Ready;
    var d := at + h.mac;
    o := NONE;
    if vnet {
      var raw := Load(mem, base, blk, d - HDR_LEN, HDR_LEN);
      o := Shifted(Unmarshal(raw), TagLen(h));
    }
    if Tagged(h) {
      var macs := Load(mem, base, blk, d, 12);
      var rest := Load(mem, base, blk, d + 12, h.snaplen - 12);
      segs := [macs, Tag(h), rest];
    } else {
      var all := Load(mem, base, blk, d, h.snaplen);
      segs := [all];
    }
    JoinThree(segs);
  }

  class Reader {
    const mem: array<u8>
    const size: nat
    const nr: nat
    const chain: bool
    const vnet: bool
    var block: nat
    var frameOff: u32
    var numPkts: u32
    var pending: bool
    var oversize: nat
    var batchTooSmall: nat
    var packets: nat

    /** Where the protocol with the kernel stands. */
    ghost var proto: P.State

    ghost predicate Valid()
      reads this`block
    {
      mem.Length == Times(nr, size) && Times(nr, size) < TWO32 && size >= BLOCK_HDR && block < nr
    }

    constructor (mem: array<u8>, size: nat, nr: nat, chain: bool, vnet: bool)
      requires mem.Length == Times(nr, size) && Times(nr, size) < TWO32 && size >= BLOCK_HDR && nr > 0
      ensures Valid() && !pending && block == 0 && this.mem == mem
      ensures oversize == 0 && batchTooSmall == 0 && packets == 0 && Between()
      ensures (forall i {:trigger Blocks()[i]} :: 0 <= i < |Blocks()| ==> Blocks()[i] == Kernel) ==> P.Initial(proto)
    {
      this.mem, this.size, this.nr, this.chain, this.vnet := mem, size, nr, chain, vnet;
      block, frameOff, numPkts, pending := 0, 0, 0, false;
      oversize, batchTooSmall, packets := 0, 0, 0;
      new;
      proto := P.State(Blocks(), 0, 0, Unread, P.Call(0, 0, 0), [], [], [], 0);
    }

    /** The protocol's state is what the mapping and the cursor say, in the middle of a block. */
    ghost predicate On()
      requires Valid()
      reads this`block, this`frameOff, this`numPkts, this`oversize, this`proto, mem
    {
      && P.Shaped(proto) && proto.blocks == Blocks() && proto.reader == block && proto.oversize == oversize
      && Ready(Blk()) && P.Current(proto) == Cursor()
    }

    /** The same between blocks and between calls. */
    ghost predicate Between()
      requires Valid()
      reads this`block, this`frameOff, this`numPkts, this`pending, this`oversize, this`proto, mem
    {
      && P.Shaped(proto) && proto.blocks == Blocks() && proto.reader == block && proto.oversize == oversize
      && if pending then Ready(Blk()) && proto.rest == Left(Cursor()) else proto.rest == Unread
    }

    /** The block the reader is on. */
    ghost function Blk(): (blk: bytes)
      requires Valid()
      reads this`block, mem
      ensures |blk| == size
    {
      BlockFits(block, nr, size);
      BlockOf(mem[..], size, nr, block)
    }

    lemma {:induction false} OwnBlock()
      requires Valid() && Ready(Blk())
      ensures Mine(mem, Times(block, size), Blk())
    {
      BlockFits(block, nr, size);
      var b := Times(block, size);
      assert mem[..][b..b + size] == mem[b..b + size];
    }

    /** What the cursor still has to see of that block. */
    ghost function Cursor(): seq<Item>
      requires Valid()
      reads this`block, this`frameOff, this`numPkts, mem
    {
      Walk(Blk(), vnet, frameOff, numPkts)
    }

    ghost function Blocks(): (bs: seq<Block>)
      requires Valid()
      reads this`block, mem
      ensures |bs| == nr && bs[block] == View(Blk(), vnet)
    {
      Split(mem[..], size, nr, vnet)
    }

    /** The items of the ready blocks after this one. */
    ghost function Later(): seq<Item>
      requires Valid()
      reads this`block, mem
    {
      Ahead(Blocks(), Past(block, 1, nr), nr - 1)
    }

    /** Everything a call could read now: the rest of this block and of the ready ones after it. */
    ghost function Stream(): seq<Item>
      requires Valid()
      reads this`block, this`frameOff, this`numPkts, this`pending, mem
    {
      if !Ready(Blk()) then []
      else (if pending then Cursor() else BlockItems(Blk(), vnet)) + Later()
    }

    /** Afterwards the cursor sees what follows the frame it was on, and fewer frames are promised. */
    method Advance(next: u32)
      requires Valid() && numPkts > 0
      modifies this`numPkts, this`frameOff
      ensures Cursor() == old(After(next)) && numPkts < old(numPkts)
    {
      hide Walk, Split, BlockOf, Ready;
      ghost var blk, after := Blk(), After(next);
      var n, off := numPkts - 1, frameOff;
      if next == 0 {
        n := 0;
      } else {
        off := Wrap32(frameOff + next);
      }
      assert Walk(blk, vnet, off, n) == after;
      numPkts, frameOff := n, off;
      assert Blk() == blk;
    }

    /** The header at the cursor, if it lies inside the block, and whether the frame it describes does. */
    method HeaderAtCursor() returns (ok: bool, h: Hdr, at: nat)
      requires Valid() && Ready(Blk())
      ensures HdrFits(size, frameOff) ==> at == Times(block, size) + frameOff && h == ReadHdr(Blk(), frameOff)
      ensures ok == (HdrFits(size, frameOff) && FrameFits(vnet, size, frameOff, h))
    {
      ok, at, h := false, 0, Hdr(0, 0, 0, 0, 0, 0, 0, 0, 0);
      if !HdrFits(size, frameOff) {
        return;
      }
      at := Wrap32(Wrap32(block * size) + frameOff);
      NoWrap(block, nr, size, frameOff);
      OwnBlock();
      var raw := Load(mem, Times(block, size), Blk(), at, FRAME_HDR);
      HdrOfSlice(Blk(), frameOff);
      h := ReadHdr(raw, 0);
      ok := FrameFits(vnet, size, frameOff, h);
    }

    /** The frame at the cursor, and what the cursor will see after it. */
    method FrameAtCursor() returns (ok: bool, h: Hdr, at: nat)
      requires Valid() && Ready(Blk()) && numPkts > 0
      ensures !ok ==> Cursor() == [Bad]
      ensures ok ==>
                at == Times(block, size) + frameOff && HdrFits(size, frameOff) && FrameFits(vnet, size, frameOff, h)
      ensures ok ==> Cursor()[0] == ItemAt(Blk(), vnet, frameOff, h) && Cursor()[1..] == After(h.next)
    {
      ok, h, at := HeaderAtCursor();
    }

    /** What the cursor sees once it has moved on by `next`. */
    ghost function After(next: u32): seq<Item>
      requires Valid() && numPkts > 0
      reads this`block, this`frameOff, this`numPkts, mem
    {
      if next == 0 then [] else Walk(Blk(), vnet, Wrap32(frameOff + next), numPkts - 1)
    }

    /** What becomes of a packet whose header and frame lie inside the block. */
    method Deliver(batch: Batch, out: nat, h: Hdr, at: nat, ghost acc: seq<Slot>, ghost item: Item) returns (v: Verdict)
      requires Valid() && Ready(Blk()) && batch.region != mem
      requires Holding(batch, acc) && |acc| == out < batch.max
      requires at == Times(block, size) + frameOff && HdrFits(size, frameOff) && FrameFits(vnet, size, frameOff, h)
      requires item == ItemAt(Blk(), vnet, frameOff, h)
      modifies batch, batch.region
      ensures Outcome(batch, item, chain, acc, v)
    {
      hide Ready, Wire, OffloadAt, Split, Holding, Outcome;
      var got := NextBuffer(batch, out, acc);
      if !got {
        v := Leave;
        OutcomeNone(batch, item, chain, acc, v);
      } else if h.snaplen < h.len {
        v := Skip(false);
        OutcomeNone(batch, item, chain, acc, v);
      } else {
        OwnBlock();
        var segs, off := Segments(mem, Times(block, size), Blk(), vnet, frameOff, h, at);
        v := Place(batch, out, segs, off, h.sec * 1_000_000_000 + h.nsec, chain, acc);
      }
    }

    /** A buffer for the next slot, if there is one. */
    static method NextBuffer(batch: Batch, out: nat, ghost acc: seq<Slot>) returns (got: bool)
      requires Holding(batch, acc) && |acc| == out < batch.max
      modifies batch`free, batch`descs
      ensures Holding(batch, acc) && batch.Room() > 0 && got == (out < |batch.start|) && (got ==> out < |batch.descs|)
    {
      got := batch.Get(out);
    }

    static lemma {:induction false} OutcomeNone(batch: Batch, item: Item, chain: bool, acc: seq<Slot>, v: Verdict)
      requires Holding(batch, acc) && batch.Room() > 0 && !v.Give?
      requires v == Judge(Mode(chain, batch.Room()), item, |acc|, batch.max, |batch.start|)
      ensures Outcome(batch, item, chain, acc, v)
    {
      hide Holding, Judge;
      Nothing(batch, acc);
    }

    /** One turn of the inner loop: the frame at the cursor, whatever it turns out to be. */
    method ReadFrame(batch: Batch, out: nat, ghost acc: seq<Slot>) returns (v: Verdict)
      requires Valid() && Ready(Blk()) && batch.region != mem && numPkts > 0
      requires Holding(batch, acc) && |acc| == out < batch.max
      modifies this`numPkts, this`frameOff, this`oversize, this`batchTooSmall, batch, batch.region
      ensures Outcome(batch, old(Cursor())[0], chain, acc, v)
      ensures Cursor() == if v.Leave? then old(Cursor()) else old(Cursor())[1..]
      ensures if v.Leave? then numPkts == old(numPkts) else numPkts < old(numPkts)
      ensures oversize == old(oversize) + (if v.Skip? then 1 else 0)
      ensures batchTooSmall == old(batchTooSmall) + (if v == Skip(true) then 1 else 0)
    {
      hide Ready, ItemAt, Split, Walk;
      var ok, h, at := FrameAtCursor();
      if ok {
        v := ReadGood(batch, out, acc, h, at);
      } else {
        Nothing(batch, acc);
        v := Skip(false);
        numPkts := 0;
      }
      Count(v);
    }

    /** A frame that lies inside the block: delivered, skipped or left, and stepped over unless left. */
    method ReadGood(batch: Batch, out: nat, ghost acc: seq<Slot>, h: Hdr, at: nat) returns (v: Verdict)
      requires Valid() && Ready(Blk()) && batch.region != mem && numPkts > 0
      requires Holding(batch, acc) && |acc| == out < batch.max
      requires at == Times(block, size) + frameOff && HdrFits(size, frameOff) && FrameFits(vnet, size, frameOff, h)
      requires Cursor()[0] == ItemAt(Blk(), vnet, frameOff, h) && Cursor()[1..] == After(h.next)
      modifies this`numPkts, this`frameOff, batch, batch.region
      ensures Outcome(batch, old(Cursor())[0], chain, acc, v)
      ensures Cursor() == if v.Leave? then old(Cursor()) else old(Cursor())[1..]
      ensures if v.Leave? then numPkts == old(numPkts) else numPkts < old(numPkts)
    {
      hide Holding, Outcome, Ready, ItemAt, Judge, Split, Walk;
      ghost var item, rest := Cursor()[0], After(h.next);
      v := Deliver(batch, out, h, at, acc, item);
      if !v.Leave? {
        assert After(h.next) == rest;
        Advance(h.next);
      }
    }

    method Count(v: Verdict)
      modifies this`oversize, this`batchTooSmall
      ensures oversize == old(oversize) + (if v.Skip? then 1 else 0)
      ensures batchTooSmall == old(batchTooSmall) + (if v == Skip(true) then 1 else 0)
    {
      if v.Skip? {
        oversize := oversize + 1;
        if v.tooSmall {
          batchTooSmall := batchTooSmall + 1;
        }
      }
    }

    /** How the ring was opened, for buffers of this batch. */
    ghost function HowOpened(batch: Batch): Mode {
      Mode(chain, batch.Room())
    }

    /**
     The call is where the tally says: its slots are in the batch, and what is
     left is the rest of this block and the ready blocks after it.
     */
    ghost predicate Here(batch: Batch, items: seq<Item>, t: Tally)
      requires Valid()
      reads this`block, this`frameOff, this`numPkts, mem, batch, batch.region
    {
      && Holding(batch, t.slots) && batch.Room() > 0
      && Surely(HowOpened(batch), items, batch.max, |batch.start|, t)
      && items[t.items..] == Cursor() + Later()
    }

    /**
     The kernel writes a block it owns. One that becomes the reader's must be the next
     in ring order, which is the kernel's side of the protocol; then it is a step of it.
     What there was to read is still there, in front.
     */
    method KernelWrites(j: nat, data: bytes, ghost m: Mode)
      requires Valid() && Between() && j < nr && |data| == size && Blocks()[j] == Kernel
      requires Ready(data) ==> P.Enabled(m, proto, KernelFill(BlockItems(data, vnet))) && j == P.At(proto, proto.ready)
      modifies mem, this`proto
      ensures Valid() && Between() && old(Stream()) <= Stream()
      ensures if Ready(data) then proto == P.Next(m, old(proto), KernelFill(BlockItems(data, vnet)))
              else proto == old(proto)
      ensures P.Inv(m, old(proto)) ==> P.Inv(m, proto)
    {
      hide Splice, Ready, BlockItems, Walk, Ahead, P.At;
      ghost var bs, was, cur, blk := Blocks(), mem[..], Cursor(), Blk();
      BlockFits(j, nr, size);
      BlockWritten(was, size, nr, vnet, j, data);
      Blit(mem, Times(j, size), data);
      AheadMore(bs, j, View(data, vnet), Past(block, 1, nr), nr - 1);
      if block != j {
        assert BlockOf(was, size, nr, block) == blk;
        assert Blk() == blk && Cursor() == cur;
      }
      if Ready(data) {
        P.NextShaped(m, proto, KernelFill(BlockItems(data, vnet)));
        if P.Inv(m, proto) {
          P.StepKeeps(m, proto, KernelFill(BlockItems(data, vnet)));
        }
        proto := P.Next(m, proto, KernelFill(BlockItems(data, vnet)));
      }
    }

    /** The first block from the reader's on that the kernel owns, if there is one: where it writes next. */
    method NextFree(ghost m: Mode) returns (found: bool, j: nat)
      requires Valid() && Between() && P.Inv(m, proto)
      ensures found <==> proto.ready < nr
      ensures found ==> j < nr && j == P.At(proto, proto.ready) && Blocks()[j] == Kernel
    {
      hide Walk, BlockItems, P.Pending, Ready;
      var i := 0;
      while i < nr
        invariant i <= nr && i <= proto.ready
      {
        j := (block + i) % nr;
        assert j == P.At(proto, i);
        if !Ready(BlockOf(mem[..], size, nr, j)) {
          return true, j;
        }
        i := i + 1;
      }
      return false, 0;
    }

    /** The kernel fills the block it is to write next, unless the ring is full. */
    method KernelFills(data: bytes, ghost m: Mode) returns (ghost steps: seq<P.Step>)
      requires Valid() && Between() && P.Inv(m, proto) && |data| == size
      modifies mem, this`proto
      ensures Quietly(m, old(proto), steps) && Stream() == old(Stream()) + P.Arrived(old(proto), proto)
    {
      hide Reader.Between, Reader.Stream, P.Inv, P.Path, P.Pending, P.Next, P.Enabled, Ready, BlockItems;
      ghost var p := proto;
      steps := [];
      P.PathNone(m, p);
      P.ArrivedJoin(p, p, p);
      StreamIsPending(m);
      assert Stream() + [] == Stream();
      var found, j := NextFree(m);
      if found && Ready(data) {
        ghost var items := BlockItems(data, vnet);
        CanFill(m, items);
        P.FillAdds(m, p, items);
        P.PathSnoc(m, p, [], p, KernelFill(items));
        assert [] + [KernelFill(items)] == [KernelFill(items)];
        KernelWrites(j, data, m);
        steps := [KernelFill(items)];
        StreamIsPending(m);
      }
    }

    lemma {:induction false} CanFill(m: Mode, items: seq<Item>)
      requires Valid() && Between() && P.Inv(m, proto) && proto.ready < nr
      ensures P.Shaped(proto) && P.Enabled(m, proto, KernelFill(items))
    {
      hide Walk, BlockItems, P.Pending, Ready, Split;
    }

    /** The kernel went its way: the protocol with it, the reader's call where it was. */
    ghost predicate Quietly(m: Mode, p: P.State, steps: seq<P.Step>)
      requires Valid()
      reads this`block, this`frameOff, this`numPkts, this`pending, this`oversize, this`proto, mem
    {
      && Between() && P.Inv(m, proto) && P.Path(m, p, steps, proto) && p.published <= proto.published
      && proto.call == p.call && proto.delivered == p.delivered
    }

    /** The kernel fills some blocks in a row. */
    method KernelTurn(datas: seq<bytes>, ghost m: Mode) returns (ghost steps: seq<P.Step>)
      requires Valid() && Between() && P.Inv(m, proto)
      requires forall i {:trigger datas[i]} :: 0 <= i < |datas| ==> |datas[i]| == size
      modifies mem, this`proto
      ensures Quietly(m, old(proto), steps) && Stream() == old(Stream()) + P.Arrived(old(proto), proto)
    {
      hide Reader.Between, Reader.Stream, P.Inv, P.Path, P.Arrived;
      ghost var p, was := proto, Stream();
      steps := [];
      P.PathNone(m, p);
      P.ArrivedJoin(p, p, p);
      assert was + [] == was;
      for i := 0 to |datas|
        invariant Quietly(m, p, steps) && Stream() == was + P.Arrived(p, proto)
      {
        ghost var q := proto;
        ghost var more := KernelFills(datas[i], m);
        P.PathJoin(m, p, steps, q, more, proto);
        P.ArrivedJoin(p, q, proto);
        assert (was + P.Arrived(p, q)) + P.Arrived(q, proto) == was + (P.Arrived(p, q) + P.Arrived(q, proto));
        steps := steps + more;
      }
    }

    /** What a call could read now is what the kernel has published and nobody has dealt with. */
    lemma {:induction false} StreamIsPending(m: Mode)
      requires Valid() && Between() && P.Inv(m, proto)
      ensures Stream() == P.Pending(proto, 0)
    {
      hide Walk, Split, Ready, Ahead;
      P.AtZero(proto);
      PastIsAt(proto, 0);
      if proto.ready > 0 {
        AheadIsPending(m, proto, 1);
      }
    }

    /** The protocol has delivered what the slots hold, on top of `d0`, and the call stands where the tally does. */
    ghost predicate Told(batch: Batch, d0: seq<bytes>, t: Tally)
      reads this`proto
    {
      && proto.call == P.Call(|t.slots|, batch.max, |batch.start|)
      && proto.delivered == d0 + Packets(t.slots) && EndsWhole(t.slots)
    }

    /** One turn of the inner loop, with its tally: one read of the protocol. */
    method Turn(batch: Batch, out0: nat, ghost items: seq<Item>, ghost t0: Tally, ghost d0: seq<bytes>)
      returns (out: nat, ghost t: Tally, stop: bool)
      requires Valid() && Ready(Blk()) && batch.region != mem && numPkts > 0
      requires Here(batch, items, t0) && |t0.slots| == out0 < batch.max && On() && Told(batch, d0, t0)
      modifies this`numPkts, this`frameOff, this`oversize, this`batchTooSmall, this`proto, batch, batch.region
      ensures Here(batch, items, t) && |t.slots| == out
      ensures oversize - t.over == old(oversize) - t0.over && batchTooSmall - t.small == old(batchTooSmall) - t0.small
      ensures if stop then Stopped(batch, items, t) else numPkts < old(numPkts)
      ensures On() && Told(batch, d0, t) && proto.rest.Left?
      ensures P.Shaped(old(proto)) && P.Enabled(HowOpened(batch), old(proto), ReadItem)
      ensures proto == P.Next(HowOpened(batch), old(proto), ReadItem)
    {
      hide Walk, Ahead, Split, Judge, Surely, Holding, Ready, Packets, EndsWhole, SlotsOf, P.Next;
      ghost var cur, later, p, m := Cursor(), Later(), proto, HowOpened(batch);
      assert P.Enabled(m, p, ReadItem);
      var v := ReadFrame(batch, out0, t0.slots);
      Onward(m, items, batch.max, |batch.start|, t0, cur, later, v);
      assert Later() == later;
      t := Tallied(t0, v, cur[0], batch.Room());
      assert v.Leave? ==> t0.slots + [] == t0.slots;
      out := out0 + (if v.Give? then v.n else 0);
      stop := v.Leave?;
      ReadOne(m, p, d0, t0, v, batch.max, |batch.start|);
      proto := P.Next(m, p, ReadItem);
    }

    /** The next item is one this call leaves in the ring. */
    ghost predicate Stopped(batch: Batch, items: seq<Item>, t: Tally)
    {
      && batch.Room() > 0 && t.items < |items|
      && Judge(HowOpened(batch), items[t.items], |t.slots|, batch.max, |batch.start|).Leave?
    }

    /** The inner loop: frames of one block, until it is empty or the call must stop. */
    method Drain(batch: Batch, out0: nat, ghost items: seq<Item>, ghost t0: Tally, ghost d0: seq<bytes>)
      returns (out: nat, ghost t: Tally, ghost steps: seq<P.Step>)
      requires Valid() && Ready(Blk()) && batch.region != mem
      requires Here(batch, items, t0) && |t0.slots| == out0 && On() && Told(batch, d0, t0)
      modifies this`numPkts, this`frameOff, this`oversize, this`batchTooSmall, this`proto, batch, batch.region
      ensures Here(batch, items, t) && |t.slots| == out
      ensures oversize - t.over == old(oversize) - t0.over && batchTooSmall - t.small == old(batchTooSmall) - t0.small
      ensures numPkts > 0 && out < batch.max ==> Stopped(batch, items, t)
      ensures On() && Told(batch, d0, t) && (numPkts > 0 && out0 < batch.max ==> proto.rest.Left?)
      ensures P.Path(HowOpened(batch), old(proto), steps, proto) && P.OfReader(steps)
    {
      hide Reader.Here, Reader.On, Reader.Told, Reader.Stopped, P.Path, P.Next, P.Enabled, P.Shaped;
      ghost var m, p := HowOpened(batch), proto;
      out, t, steps := out0, t0, [];
      P.PathNone(m, p);
      var stop := false;
      while numPkts > 0 && out < batch.max && !stop
        invariant Here(batch, items, t) && |t.slots| == out
        invariant oversize - t.over == old(oversize) - t0.over
        invariant batchTooSmall - t.small == old(batchTooSmall) - t0.small
        invariant stop ==> Stopped(batch, items, t)
        invariant On() && Told(batch, d0, t) && P.Path(m, p, steps, proto) && P.OfReader(steps)
        invariant if steps == [] then out == out0 && !stop && numPkts == old(numPkts) else proto.rest.Left?
        decreases !stop, numPkts
      {
        ghost var q := proto;
        out, t, stop := Turn(batch, out, items, t, d0);
        P.PathSnoc(m, p, steps, q, ReadItem);
        steps := steps + [ReadItem];
      }
    }

    /** How many blocks a call could still be handed. */
    ghost function Waiting(): nat
      requires Valid()
      reads this`block, mem
    {
      ReadyAhead(Blocks(), block, nr)
    }

    /** Gives the finished block back to the kernel and moves to the next. */
    method HandBack()
      requires Valid() && Ready(Blk())
      modifies this`block, mem
      ensures Valid() && block == Past(old(block), 1, nr) && Blocks() == old(Blocks()[block := Kernel])
    {
      hide Splice, View, Ready, Walk, BlockItems;
      BlockFits(block, nr, size);
      NoWrap(block, nr, size, 0);
      PastIsMod(block, nr);
      GivenBack(mem[..], size, nr, vnet, block);
      ghost var now := Blocks()[block := Kernel];
      Blit(mem, block * size + OFF_STATUS, [0, 0, 0, 0]);
      block := (block + 1) % nr;
      assert Blocks() == now;
    }

    /** Once it has, what there is to read is what was ready after that block. */
    method Finish(ghost m: Mode, ghost batch: Batch, ghost d0: seq<bytes>, ghost t: Tally)
      requires Valid() && Ready(Blk()) && !pending && On() && numPkts == 0 && Told(batch, d0, t)
      modifies this`block, this`proto, mem
      ensures Valid() && Stream() == old(Later()) && Waiting() < old(Waiting())
      ensures Between() && P.Shaped(old(proto)) && P.Enabled(m, old(proto), P.HandBack)
      ensures proto == P.Next(m, old(proto), P.HandBack)
      ensures Told(batch, d0, t)
    {
      hide Ahead, ReadyAhead, Split, BlockItems;
      ghost var bs, was, later, p := Blocks(), block, Later(), proto;
      assert bs[was].User?;
      assert Cursor() == [];
      Passed(bs, was);
      PastIsMod(was, nr);
      HandBack();
      WholeTurn();
      assert Ahead(Blocks(), block, nr) == later;
      P.NextShaped(m, p, P.HandBack);
      proto := P.Next(m, p, P.HandBack);
    }

    /** Between blocks, everything ahead is one turn of the ring from this block. */
    lemma {:induction false} WholeTurn()
      requires Valid() && !pending
      ensures Stream() == Ahead(Blocks(), block, nr)
    {
      var bs := Blocks();
      assert bs[block] == View(Blk(), vnet);
      if Ready(Blk()) {
        assert Ahead(bs, block, nr) == bs[block].items + Ahead(bs, Past(block, 1, nr), nr - 1);
      }
    }

    /** Takes up the block the reader is on: where the last call left it, or from its start. */
    method Begin() returns (ready: bool)
      requires Valid() && Between()
      modifies this`numPkts, this`frameOff, this`pending
      ensures ready == Ready(Blk()) && if ready then On() else Between()
      ensures ready ==> Cursor() + Later() == old(Stream()) && !pending
      ensures !ready ==> Stream() == old(Stream()) == []
    {
      var mine, n, first := BlockHeader();
      ready := mine;
      if ready {
        if !pending {
          numPkts, frameOff := n, first;
        }
        pending := false;
      }
    }

    /** The block's status, and once it is the reader's, where its frames start and how many. */
    method BlockHeader() returns (ready: bool, n: u32, first: u32)
      requires Valid()
      ensures ready == Ready(Blk())
      ensures ready ==> n == U32(Blk(), OFF_NUM_PKTS) && first == U32(Blk(), OFF_FIRST)
    {
      BlockFits(block, nr, size);
      var at := Wrap32(block * size);
      NoWrap(block, nr, size, 0);
      ready, n, first := Bit(Field(at, OFF_STATUS), 0), 0, 0;
      if ready {
        n, first := Field(at, OFF_NUM_PKTS), Field(at, OFF_FIRST);
      }
    }

    /** The 32-bit field at offset `k` of the block that starts at `at`, read where it lies. */
    function Field(at: nat, k: nat): (v: u32)
      requires Valid() && at == Times(block, size) && k + 4 <= BLOCK_HDR
      reads this`block, mem
      ensures v == U32(Blk(), k)
    {
      BlockFits(block, nr, size);
      assert mem[..][at + k..at + k + 4] == mem[at + k..at + k + 4];
      SliceOfSlice(mem[..], at, size, k, 4);
      FromLE(mem[at + k..at + k + 4])
    }

    /** What the kernel does while a call goes on, if it does anything, it does by the protocol. */
    ghost predicate Working(m: Mode, kernel: seq<seq<bytes>>)
      reads this`proto
    {
      && (kernel != [] ==> P.Inv(m, proto))
      && forall k, i {:trigger kernel[k][i]} :: 0 <= k < |kernel| && 0 <= i < |kernel[k]| ==> |kernel[k][i]| == size
    }

    /**
     One call: drains ready blocks in order until the batch is full, the frames
     run out or the ring runs dry, while the kernel goes on filling blocks: `kernel[k]`
     are those it fills before the reader's `k`th look at a block's status. (The reader
     touches no block of the kernel's in between, so a block may be taken to come then.)
     What the call delivers, consumes, counts and leaves are functions of what was ready
     when it began and what arrived in time.
     */
    method Read(batch: Batch, kernel: seq<seq<bytes>>) returns (out: nat, ghost steps: seq<P.Step>)
      requires Valid() && batch.region != mem && Holding(batch, []) && batch.Room() > 0 && Between()
      requires Working(HowOpened(batch), kernel)
      modifies this, mem, batch, batch.region
      ensures Valid() && batch.Valid() && Between()
      ensures var items, m, max, avail := old(Stream()) + P.Arrived(old(proto), proto), HowOpened(batch), batch.max,
              |batch.start|;
              && batch.ShowsAll(Filled(m, items, 0, max, avail))
              && out == |Filled(m, items, 0, max, avail)|
              && Stream() == items[Consumed(m, items, 0, max, avail)..]
              && oversize == old(oversize) + Oversize(m, items, 0, max, avail)
              && batchTooSmall == old(batchTooSmall) + BatchTooSmall(m, items, 0, max, avail)
              && proto.delivered == old(proto.delivered) + Packets(Filled(m, items, 0, max, avail))
      ensures packets == old(packets) + out
      ensures P.Path(HowOpened(batch), old(proto), steps, proto) && (kernel == [] ==> P.OfReader(steps))
    {
      hide Reader.On, Reader.Between, Reader.Told, Reader.Stream, Reader.Stopped, Reader.Waiting, Surely;
      hide Holding, P.Path, Packets;
      hide Filled, Consumed, Oversize, BatchTooSmall, P.OfReader, Batch.Valid, Batch.ShowsAll, P.Inv;
      hide P.Arrived, Reader.Working;
      ghost var items, d0, p, m := Stream(), proto.delivered, proto, HowOpened(batch);
      ghost var first := BeginProto(m, batch, kernel);
      ghost var t, more, q := Tally([], 0, 0, 0), [], proto;
      SurelyNone(m, items, batch.max, |batch.start|);
      out, t, more, items := ReadBlocks(batch, kernel, items, d0);
      P.PathJoin(m, p, first, q, more, proto);
      P.ArrivedSame(p, q, proto);
      steps := first + more;
      if kernel == [] {
        P.OfReaderJoin(first, more);
      }
      Ended(batch, items, t);
      HoldingShows(batch, t.slots);
      ToldIs(batch, d0, t);
      UptoEnd(m, items, batch.max, |batch.start|, t);
      packets := packets + out;
    }

    /** Between two blocks: `k` looks were taken, and the items that were ready or arrived by then are `items`. */
    ghost predicate Amid(batch: Batch, items: seq<Item>, t: Tally, d0: seq<bytes>, p: P.State, steps: seq<P.Step>)
      requires Valid()
      reads this, mem, batch, batch.region
    {
      && Holding(batch, t.slots) && batch.Room() > 0 && Between() && Told(batch, d0, t)
      && t.items <= |items| && Surely(HowOpened(batch), items, batch.max, |batch.start|, t)
         && items[t.items..] == Stream()
      && P.Path(HowOpened(batch), p, steps, proto)
    }

    /** The outer loop: block after block. */
    method ReadBlocks(batch: Batch, kernel: seq<seq<bytes>>, ghost items0: seq<Item>, ghost d0: seq<bytes>)
      returns (out: nat, ghost t: Tally, ghost steps: seq<P.Step>, ghost items: seq<Item>)
      requires Valid() && batch.region != mem && batch.Room() > 0 && Between() && Told(batch, d0, Tally([], 0, 0, 0))
      requires Holding(batch, []) && items0 == Stream() && Working(HowOpened(batch), kernel)
      requires Surely(HowOpened(batch), items0, batch.max, |batch.start|, Tally([], 0, 0, 0))
      modifies this`block, this`numPkts, this`frameOff, this`pending, this`oversize, this`batchTooSmall, this`proto, mem
      modifies batch, batch.region
      ensures Valid() && Amid(batch, items, t, d0, old(proto), steps) && |t.slots| == out
      ensures items == items0 + P.Arrived(old(proto), proto) && (kernel == [] ==> P.OfReader(steps))
      ensures oversize == old(oversize) + t.over && batchTooSmall == old(batchTooSmall) + t.small
      ensures out < batch.max && t.items < |items| ==> Stopped(batch, items, t)
    {
      hide Reader.On, Reader.Between, Reader.Told, Reader.Stream, Reader.Stopped, Reader.Waiting, Surely;
      hide Holding, P.Path, P.OfReader;
      hide Reader.Amid, P.Inv, P.Arrived;
      ghost var p, m := proto, HowOpened(batch);
      t, steps, items := Tally([], 0, 0, 0), [], items0;
      AtFirst(batch, items0, d0);
      NoSteps();
      P.ArrivedJoin(p, p, p);
      assert items0 + [] == items0;
      out := 0;
      var stop, k := false, 0;
      while out < batch.max && !stop
        invariant Valid() && Amid(batch, items, t, d0, p, steps) && |t.slots| == out && k <= |kernel|
        invariant p.published <= proto.published && items == items0 + P.Arrived(p, proto)
        invariant (kernel != [] ==> P.Inv(m, proto)) && (kernel == [] ==> P.OfReader(steps))
        invariant oversize == old(oversize) + t.over && batchTooSmall == old(batchTooSmall) + t.small
        invariant stop && out < batch.max && t.items < |items| ==> Stopped(batch, items, t)
        decreases |kernel| - k, !stop, Waiting()
      {
        if k < |kernel| {
          items, steps := KernelAmid(kernel[k], batch, items0, items, t, d0, p, steps);
          k := k + 1;
        }
        out, t, stop, steps := BlockAmid(batch, out, items, t, d0, p, steps);
      }
    }

    lemma {:induction false} AtFirst(batch: Batch, items: seq<Item>, d0: seq<bytes>)
      requires Valid() && batch.Room() > 0 && Between() && Told(batch, d0, Tally([], 0, 0, 0))
      requires Holding(batch, []) && items == Stream()
      requires Surely(HowOpened(batch), items, batch.max, |batch.start|, Tally([], 0, 0, 0))
      ensures Amid(batch, items, Tally([], 0, 0, 0), d0, proto, [])
    {
      hide Reader.Between, Reader.Told, Reader.Stream, Surely, Holding, P.Path;
      assert items[0..] == items;
      P.PathNone(HowOpened(batch), proto);
    }

    /** Blocks that arrive between two looks. */
    method KernelAmid(datas: seq<bytes>, ghost batch: Batch, ghost items0: seq<Item>, ghost items: seq<Item>,
                      ghost t: Tally,
                      ghost d0: seq<bytes>, ghost p: P.State, ghost steps: seq<P.Step>)
      returns (ghost now: seq<Item>, ghost path: seq<P.Step>)
      requires Valid() && Amid(batch, items, t, d0, p, steps) && P.Inv(HowOpened(batch), proto) && batch.region != mem
      requires p.published <= proto.published && items == items0 + P.Arrived(p, proto)
      requires forall i {:trigger datas[i]} :: 0 <= i < |datas| ==> |datas[i]| == size
      modifies mem, this`proto
      ensures Valid() && Amid(batch, now, t, d0, p, path) && P.Inv(HowOpened(batch), proto)
      ensures p.published <= proto.published && now == items0 + P.Arrived(p, proto)
    {
      hide Reader.Between, Reader.Stream, Surely, Holding, P.Path, P.Inv, P.Arrived;
      ghost var q, m := proto, HowOpened(batch);
      ghost var more := KernelTurn(datas, m);
      P.PathJoin(m, p, steps, q, more, proto);
      P.ArrivedJoin(p, q, proto);
      ghost var added := P.Arrived(q, proto);
      SurelyGrows(m, items, added, batch.max, |batch.start|, t);
      assert (items + added)[t.items..] == items[t.items..] + added;
      assert (items0 + P.Arrived(p, q)) + added == items0 + (P.Arrived(p, q) + added);
      now, path := items + added, steps + more;
    }

    /** One block, if it is the reader's. */
    method BlockAmid(batch: Batch, out0: nat, ghost items: seq<Item>, ghost t0: Tally, ghost d0: seq<bytes>,
                     ghost p: P.State, ghost steps: seq<P.Step>)
      returns (out: nat, ghost t: Tally, stop: bool, ghost path: seq<P.Step>)
      requires Valid() && Amid(batch, items, t0, d0, p, steps) && |t0.slots| == out0 < batch.max && batch.region != mem
      requires p.published <= proto.published
      modifies this`block, this`numPkts, this`frameOff, this`pending, this`oversize, this`batchTooSmall, this`proto, mem
      modifies batch, batch.region
      ensures Valid() && Amid(batch, items, t, d0, p, path) && |t.slots| == out
      ensures P.Arrived(p, proto) == P.Arrived(p, old(proto)) && p.published <= proto.published
      ensures P.Inv(HowOpened(batch), old(proto)) ==> P.Inv(HowOpened(batch), proto)
      ensures P.OfReader(steps) ==> P.OfReader(path)
      ensures oversize - t.over == old(oversize) - t0.over && batchTooSmall - t.small == old(batchTooSmall) - t0.small
      ensures stop && out < batch.max && t.items < |items| ==> Stopped(batch, items, t)
      ensures !stop ==> Waiting() < old(Waiting())
    {
      hide Reader.On, Reader.Between, Reader.Told, Reader.Stream, Reader.Stopped, Reader.Waiting, Surely;
      hide Holding, P.Path, P.OfReader;
      hide P.Inv;
      ghost var q, more, m := proto, [], HowOpened(batch);
      out, t, stop, more := ReadBlock(batch, out0, items, t0, d0);
      P.PathJoin(m, p, steps, q, more, proto);
      P.PathPublishes(m, q, more, proto);
      if P.OfReader(steps) {
        P.OfReaderJoin(steps, more);
      }
      if P.Inv(m, q) {
        P.PathKeeps(m, q, more, proto);
      }
      path := steps + more;
    }

    lemma {:induction false} NoSteps()
      ensures P.OfReader([])
    {
    }

    lemma {:induction false} GetHere(batch: Batch, items: seq<Item>, t: Tally)
      requires Valid() && Holding(batch, t.slots) && batch.Room() > 0
      requires Surely(HowOpened(batch), items, batch.max, |batch.start|, t) && t.items <= |items|
               && items[t.items..] == Cursor() + Later()
      ensures Here(batch, items, t)
    {
    }

    lemma {:induction false} GotHere(batch: Batch, items: seq<Item>, t: Tally)
      requires Valid() && Here(batch, items, t)
      ensures Holding(batch, t.slots) && t.items <= |items| && items[t.items..] == Cursor() + Later()
      ensures Surely(HowOpened(batch), items, batch.max, |batch.start|, t)
    {
    }

    /** A block left part way is where the next call goes on. */
    lemma {:induction false} Paused()
      requires Valid() && On() && pending && proto.rest.Left?
      ensures Between() && Stream() == Cursor() + Later()
    {
    }

    lemma {:induction false} Emptied()
      requires Valid() && numPkts == 0
      ensures Cursor() == [] && Cursor() + Later() == Later()
    {
    }

    lemma {:induction false} ToldIs(batch: Batch, d0: seq<bytes>, t: Tally)
      requires Told(batch, d0, t)
      ensures proto.delivered == d0 + Packets(t.slots)
    {
    }

    lemma {:induction false} HoldingShows(batch: Batch, ss: seq<Slot>)
      requires Holding(batch, ss)
      ensures batch.Valid() && batch.ShowsAll(ss)
    {
    }

    lemma {:induction false} Ended(batch: Batch, items: seq<Item>, t: Tally)
      requires batch.Room() > 0
      ensures Stopped(batch, items, t) ==>
                t.items < |items| && Judge(HowOpened(batch), items[t.items], |t.slots|, batch.max, |batch.start|).Leave?
    {
    }

    /** Tells the protocol that a call begins. */
    ghost method BeginProto(m: Mode, batch: Batch, kernel: seq<seq<bytes>>) returns (steps: seq<P.Step>)
      requires Valid() && Between() && Working(m, kernel)
      modifies this`proto
      ensures Between() && Working(m, kernel) && proto.published == old(proto.published)
              && Told(batch, old(proto.delivered), Tally([], 0, 0, 0))
      ensures P.Path(m, old(proto), steps, proto) && P.OfReader(steps)
    {
      hide Walk, Split, Ready;
      var step := P.BeginCall(batch.max, |batch.start|);
      P.PathNone(m, proto);
      P.PathSnoc(m, proto, [], proto, step);
      assert [] + [step] == [step];
      steps := [step];
      if P.Inv(m, proto) {
        P.StepKeeps(m, proto, step);
      }
      proto := P.Next(m, proto, step);
    }

    /** The outer loop's body: one ready block, as far as the call can take it. */
    method ReadBlock(batch: Batch, out0: nat, ghost items: seq<Item>, ghost t0: Tally, ghost d0: seq<bytes>)
      returns (out: nat, ghost t: Tally, stop: bool, ghost steps: seq<P.Step>)
      requires Valid() && batch.region != mem && batch.Room() > 0 && Between() && Told(batch, d0, t0)
      requires Holding(batch, t0.slots) && |t0.slots| == out0 < batch.max
      requires Surely(HowOpened(batch), items, batch.max, |batch.start|, t0) && t0.items <= |items|
               && items[t0.items..] == Stream()
      modifies this`block, this`numPkts, this`frameOff, this`pending, this`oversize, this`batchTooSmall, this`proto, mem
      modifies batch, batch.region
      ensures Valid() && Holding(batch, t.slots) && |t.slots| == out && Between() && Told(batch, d0, t)
      ensures t.items <= |items| && Surely(HowOpened(batch), items, batch.max, |batch.start|, t)
              && items[t.items..] == Stream()
      ensures oversize - t.over == old(oversize) - t0.over && batchTooSmall - t.small == old(batchTooSmall) - t0.small
      ensures stop && out < batch.max && t.items < |items| ==> Stopped(batch, items, t)
      ensures !stop ==> Waiting() < old(Waiting())
      ensures P.Path(HowOpened(batch), old(proto), steps, proto) && P.OfReader(steps)
    {
      hide Ready, Holding, Surely, P.Path, P.Next, Reader.Stopped, Reader.Waiting, Reader.Here, Reader.On;
      hide Reader.Between, Reader.Told;
      hide Reader.Cursor, Reader.Later, Reader.Stream;
      ghost var p, m := proto, HowOpened(batch);
      out, t, stop, steps := out0, t0, true, [];
      P.PathNone(m, p);
      var ready := Begin();
      if ready {
        GetHere(batch, items, t0);
        out, t, steps := Drain(batch, out0, items, t0, d0);
        GotHere(batch, items, t);
        if numPkts != 0 {
          pending := true;
          Paused();
        } else {
          ghost var q := proto;
          Emptied();
          Finish(m, batch, d0, t);
          P.PathSnoc(m, p, steps, q, P.HandBack);
          steps := steps + [P.HandBack];
          stop := false;
        }
      }
    }
  }

  lemma {:induction false} PastIsAt(s: P.State, j: nat)
    requires P.Shaped(s)
    ensures Past(P.At(s, j), 1, |s.blocks|) == P.At(s, j + 1)
  {
    var n := |s.blocks|;
    var q, r := (s.reader + j) / n, (s.reader + j) % n;
    assert s.reader + j == n * q + r;
    if r + 1 < n {
      ModUnique(s.reader + j + 1, n, q, r + 1);
    } else {
      ModUnique(s.reader + j + 1, n, q + 1, 0);
    }
  }

  /** The ready blocks from the `j`th on hold what is pending from there. */
  lemma {:induction false} AheadIsPending(m: Mode, s: P.State, j: nat)
    requires P.Inv(m, s) && 0 < j <= s.ready
    ensures Ahead(s.blocks, P.At(s, j), |s.blocks| - j) == P.Pending(s, j)
    decreases s.ready - j
  {
    if j < s.ready {
      PastIsAt(s, j);
      AheadIsPending(m, s, j + 1);
    }
  }

  /** What one read of the protocol does, next to the tally of the call. */
  lemma {:induction false} ReadOne(m: Mode, p: P.State, d0: seq<bytes>, t0: Tally, v: Verdict, max: nat, avail: nat)
    requires m.room > 0 && P.Shaped(p) && P.Enabled(m, p, ReadItem) && p.call == P.Call(|t0.slots|, max, avail)
    requires v == Judge(m, P.Current(p)[0], |t0.slots|, max, avail)
    requires p.delivered == d0 + Packets(t0.slots) && EndsWhole(t0.slots)
    ensures var q, item := P.Next(m, p, ReadItem), P.Current(p)[0];
            var t := Tallied(t0, v, item, m.room);
            && P.Shaped(q) && q.blocks == p.blocks && q.reader == p.reader && q.call == P.Call(|t.slots|, max, avail)
            && q.rest == Left(if v.Leave? then P.Current(p) else P.Current(p)[1..])
            && q.oversize == p.oversize + (if v.Skip? then 1 else 0)
            && q.delivered == d0 + Packets(t.slots) && EndsWhole(t.slots)
  {
    hide Packets, EndsWhole, SlotsOf;
    var item := P.Current(p)[0];
    P.JudgeJustified(m, item, p.call);
    if v.Give? {
      PacketsGrow(t0.slots, item, m.room);
      SlotsCarry(item, m.room);
      BuffersStep(|item.wire|, m.room);
      assert d0 + (Packets(t0.slots) + [item.wire]) == (d0 + Packets(t0.slots)) + [item.wire];
    } else {
      assert t0.slots + [] == t0.slots;
    }
  }

  /** Handing back block `b` leaves the blocks after it to read, one fewer in all. */
  lemma {:induction false} Passed(bs: seq<Block>, b: nat)
    requires b < |bs| && bs[b].User?
    ensures var n, now := Past(b, 1, |bs|), bs[b := Kernel];
            Ahead(now, n, |bs|) == Ahead(bs, n, |bs| - 1) && ReadyAhead(now, n, |bs|) < ReadyAhead(bs, b, |bs|)
  {
    AheadAfter(bs, b, Past(b, 1, |bs|), |bs| - 1);
  }
}
