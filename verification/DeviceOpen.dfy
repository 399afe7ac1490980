/**
 How a DPDK device deals its frames to its queues when it opens, and how it
 sizes their rings: the start state of `Ownership`.
 */
module DeviceOpen {
  import opened Words
  import opened Bytes
  import opened Pool
  import opened QueueSpec
  import opened Ownership
  import opened OwnershipRuns
  import Mbuf

  datatype Option<T> = None | Some(value: T)

  /** `p` is the size `ringSize` gives a queue of `n` frames: the least power of two that holds them. */
  ghost predicate IsRingSize(p: nat, n: int) {
    IsPow2(p) && n <= p && forall q: nat :: IsPow2(q) && n <= q ==> p <= q
  }

  lemma {:induction false} Pow2Less(j: nat, k: nat)
    ensures Pow2(j) < Pow2(k) ==> j < k
  {
    if k <= j {
      Pow2Mono(k, j);
    }
  }

  /** A power of two whose half is too small is the least that fits. */
  lemma {:induction false} LeastPow2(k: nat, n: int)
    requires n <= Pow2(k) && (k > 0 ==> Pow2(k - 1) < n)
    ensures IsRingSize(Pow2(k), n)
  {
    forall q: nat | IsPow2(q) && n <= q
      ensures Pow2(k) <= q
    {
      var j: nat :| q == Pow2(j);
      if k > 0 {
        Pow2Less(k - 1, j);
        Pow2Mono(k, j);
      }
    }
  }

  method NextPow2(n: int) returns (p: nat)
    ensures IsRingSize(p, n)
  {
    p := 1;
    ghost var k: nat := 0;
    while p < n
      invariant p == Pow2(k) && (k > 0 ==> Pow2(k - 1) < n)
      decreases n - p
    {
      p := 2 * p;
      k := k + 1;
    }
    LeastPow2(k, n);
  }

  /** Slices end to end from the first frame, together all of them. */
  ghost predicate EndToEnd(slices: seq<Geometry>, frames: nat) {
    && slices != [] && slices[0].first == 0
    && (forall i :: 0 < i < |slices| ==> slices[i].first == slices[i - 1].first + slices[i - 1].count)
    && slices[|slices| - 1].first + slices[|slices| - 1].count == frames
  }

  /**
   Deals `frames` frames to the transmit rings and then the receive queues: an
   even share each, and one more to the first few while there are leftovers.
   */
  method Share(frames: nat, frameSize: nat, txQueues: nat, rings: nat, rxQueues: nat) returns (slices: seq<Geometry>)
    requires txQueues * rings + rxQueues > 0
    ensures |slices| == txQueues * rings + rxQueues && EndToEnd(slices, frames)
    ensures forall i :: 0 <= i < |slices| ==>
              slices[i].frameSize == frameSize &&
              frames / |slices| <= slices[i].count <= frames / |slices| + 1
  {
    hide Dealt, EndToEnd;
    var queues := txQueues * rings + rxQueues;
    var perQueue: nat, leftover: nat := frames / queues, frames % queues;
    ghost var extra: nat := leftover;
    var first: nat := 0;
    slices := [];
    NoneDealt(perQueue, extra, frameSize);
    var i := 0;
    while i < txQueues
      invariant 0 <= i <= txQueues && |slices| == Times(i, rings)
      invariant Dealt(slices, first, perQueue, extra, leftover, frameSize)
    {
      var r := 0;
      while r < rings
        invariant 0 <= r <= rings && |slices| == Times(i, rings) + r
        invariant Dealt(slices, first, perQueue, extra, leftover, frameSize)
      {
        slices, first, leftover := Take(slices, first, perQueue, extra, leftover, frameSize);
        r := r + 1;
      }
      i := i + 1;
    }
    i := 0;
    while i < rxQueues
      invariant 0 <= i <= rxQueues && |slices| == Times(txQueues, rings) + i
      invariant Dealt(slices, first, perQueue, extra, leftover, frameSize)
    {
      slices, first, leftover := Take(slices, first, perQueue, extra, leftover, frameSize);
      i := i + 1;
    }
    TimesIs(txQueues, rings);
    Divided(frames, queues);
    AllDealt(slices, first, perQueue, extra, leftover, frameSize, frames);
  }

  lemma {:induction false} NoneDealt(perQueue: nat, extra: nat, frameSize: nat)
    ensures Dealt([], 0, perQueue, extra, extra, frameSize)
  {
  }

  /** A share each for as many queues as the frames were divided by is all the frames. */
  lemma {:induction false} AllDealt(slices: seq<Geometry>, first: nat, perQueue: nat, extra: nat, leftover: nat,
                                    frameSize: nat, frames: nat)
    requires Dealt(slices, first, perQueue, extra, leftover, frameSize) && slices != []
    requires frames == Times(|slices|, perQueue) + extra && extra < |slices|
    ensures EndToEnd(slices, frames)
    ensures forall i :: 0 <= i < |slices| ==>
              slices[i].frameSize == frameSize && perQueue <= slices[i].count <= perQueue + 1
  {
    hide EndToEnd;
  }

  lemma {:induction false} Divided(frames: nat, n: nat)
    requires n > 0
    ensures frames == Times(n, frames / n) + frames % n && frames % n < n
  {
    TimesIs(n, frames / n);
    assert frames == n * (frames / n) + frames % n;
  }

  /** The slices dealt so far: end to end, an even share each, and one more to each of the first `extra`. */
  ghost predicate Dealt(slices: seq<Geometry>, first: nat, perQueue: nat, extra: nat, leftover: nat, frameSize: nat) {
    && (slices != [] ==> EndToEnd(slices, first)) && (slices == [] ==> first == 0)
    && leftover == (if |slices| < extra then extra - |slices| else 0)
    && first == Times(|slices|, perQueue) + (extra - leftover)
    && forall i :: 0 <= i < |slices| ==>
         slices[i].frameSize == frameSize && perQueue <= slices[i].count <= perQueue + 1
  }

  method Take(slices: seq<Geometry>, first: nat, perQueue: nat, ghost extra: nat, leftover: nat, frameSize: nat)
    returns (slices': seq<Geometry>, first': nat, leftover': nat)
    requires Dealt(slices, first, perQueue, extra, leftover, frameSize)
    ensures |slices'| == |slices| + 1 && Dealt(slices', first', perQueue, extra, leftover', frameSize)
  {
    var count;
    if leftover > 0 {
      leftover', count := leftover - 1, perQueue + 1;
    } else {
      leftover', count := leftover, perQueue;
    }
    slices', first' := slices + [Geometry(first, count, frameSize)], first + count;
  }

  /** A device whose slices were dealt end to end starts with every frame in one place. */
  lemma {:induction false} DealtPartitions(dev: Device, slices: seq<Geometry>, frames: nat)
    requires dev.Valid() && EndToEnd(slices, frames) && |slices| == |dev.cs|
    requires forall i :: 0 <= i < |dev.cs| ==> dev.cs[i].g == slices[i]
    requires dev.cs[0].regionLen == frames * dev.cs[0].l.frameSize
    ensures Partitioned(dev)
  {
    var n := |dev.cs| - 1;
    assert SameRegion(dev.cs[0], dev.cs[n]);
  }

  // -------------------------------------------------------------- the device

  /** What a device is opened with, once its region has been mapped. */
  datatype Plan = Plan(l: Mbuf.Layout, regionVA: nat, frames: nat, txQueues: nat, rings: nat, rxQueues: nat,
                       txDepth: int, rxDepth: int, checked: bool)
  {
    function Sends(): nat { txQueues * rings }

    function Queues(): nat { Sends() + rxQueues }

    function RegionLen(): nat { frames * l.frameSize }

    /** The region is where addresses reach, and no ring needs more entries than its indices count. */
    ghost predicate Mapped() {
      && l.Valid() && l.headroom < TWO16 && Queues() > 0 && frames <= TWO31
      && RegionLen() <= 0x1_0000_0000_0000 && regionVA + RegionLen() <= TWO64
    }

    function Depth(i: nat): int { if i < Sends() then txDepth else rxDepth }

    /** Queue `i` of the device. */
    function Queue(i: nat, g: Geometry, poolVA: u64, cap: nat): RawConfig
      requires Depth(i) >= 0
    {
      RawConfig(l, g, checked, RegionLen(), regionVA, poolVA, Depth(i), cap)
    }
  }

  /** Slices dealt end to end stay inside the region. */
  lemma {:induction false} SliceInside(slices: seq<Geometry>, frames: nat, i: nat, j: nat)
    requires EndToEnd(slices, frames) && i <= j < |slices|
    ensures slices[i].first + slices[i].count <= slices[j].first + slices[j].count
    decreases j
  {
    if i < j {
      SliceInside(slices, frames, i, j - 1);
    }
  }

  lemma {:induction false} SmallRing(p: nat, n: int)
    requires IsRingSize(p, n) && n <= TWO31
    ensures p <= TWO31
  {
    Pow2At32();
    assert IsPow2(TWO31) by {
      assert Pow2(32) == 2 * Pow2(31);
    }
  }

  /** Such a queue is one the constructors accept. */
  lemma {:induction false} QueueOK(p: Plan, slices: seq<Geometry>, i: nat, poolVA: u64, cap: nat)
    requires p.Mapped() && EndToEnd(slices, p.frames) && i < |slices| && slices[i].frameSize == p.l.frameSize
    requires p.Depth(i) > 0 && IsRingSize(cap, slices[i].count)
    ensures p.Queue(i, slices[i], poolVA, cap).Valid()
  {
    hide IsPow2;
    var m, g := p.l.frameSize, slices[i];
    SliceInside(slices, p.frames, i, |slices| - 1);
    MulMono(g.first + g.count, p.frames, m);
    SmallRing(cap, g.count);
    ModUnique(p.RegionLen(), m, p.frames, 0);
  }

  /** Whether there is a frame for every queue, and a depth. */
  ghost predicate Feasible(p: Plan) {
    p.frames >= p.Queues() && forall i {:trigger p.Depth(i)} :: 0 <= i < p.Queues() ==> p.Depth(i) > 0
  }

  /** The first queues of the device. */
  ghost predicate Built(p: Plan, pools: nat -> u64, slices: seq<Geometry>, cs: seq<Config>) {
    |cs| <= |slices| && forall i {:trigger cs[i]} :: 0 <= i < |cs| ==>
      && p.Depth(i) > 0 && IsRingSize(cs[i].cap, slices[i].count)
      && cs[i] == p.Queue(i, slices[i], pools(i), cs[i].cap)
  }

  /** One queue, unless it has no frames or no depth. */
  method OpenQueue(p: Plan, slices: seq<Geometry>, i: nat, poolVA: u64) returns (c: Option<Config>)
    requires p.Mapped() && EndToEnd(slices, p.frames) && i < |slices| && slices[i].frameSize == p.l.frameSize
    ensures c.Some? <==> slices[i].count > 0 && p.Depth(i) > 0
    ensures c.Some? ==>
              IsRingSize(c.value.cap, slices[i].count) && c.value == p.Queue(i, slices[i], poolVA, c.value.cap)
  {
    hide EndToEnd, IsRingSize, RawConfig.Valid, Plan.Mapped, IsPow2;
    if slices[i].count == 0 || p.Depth(i) <= 0 {
      return None;
    }
    var cap := NextPow2(slices[i].count);
    QueueOK(p, slices, i, poolVA, cap);
    return Some(p.Queue(i, slices[i], poolVA, cap));
  }

  /**
   Opens the queues over their shares, each with rings that hold its share; `pools` says
   where the mempool of each is. It fails when a queue has no frames or no depth.
   */
  method Open(p: Plan, pools: nat -> u64) returns (dev: Option<Device>, ghost slices: seq<Geometry>)
    requires p.Mapped() && forall i, j :: 0 <= i < j < p.Queues() ==> pools(i) != pools(j)
    ensures dev.Some? <==> Feasible(p)
    ensures dev.Some? ==>
              && |slices| == |dev.value.cs| == p.Queues() && Built(p, pools, slices, dev.value.cs)
              && EndToEnd(slices, p.frames) && Partitioned(dev.value)
              && forall i {:trigger dev.value.rx[i]} :: 0 <= i < p.Queues() ==> dev.value.rx[i] == (i >= p.Sends())
  {
    hide EndToEnd, IsRingSize, RawConfig.Valid, Plan.Mapped, Plan.Queue, Partitioned, Built;
    assert p.Queues() > 0 by {
      MappedHas(p);
    }
    var gs := Share(p.frames, p.l.frameSize, p.txQueues, p.rings, p.rxQueues);
    slices := gs;
    SharesPositive(p.frames, |gs|);
    var cs: seq<Config> := [];
    NoneBuilt(p, pools, gs);
    while |cs| < |gs|
      invariant |cs| <= |gs| && Built(p, pools, gs, cs)
      invariant forall k {:trigger gs[k]} :: 0 <= k < |cs| ==> gs[k].count > 0
    {
      var c := OpenQueue(p, gs, |cs|, pools(|cs|));
      if c.None? {
        return None, gs;
      }
      BuiltMore(p, pools, gs, cs, c.value);
      cs := cs + [c.value];
    }
    EnoughFrames(gs, p.frames, |gs| - 1);
    var d := Device(cs, seq(|cs|, i => i >= p.Sends()));
    OpenedIsValid(p, pools, gs, d);
    DepthsOf(p, pools, gs, cs);
    dev := Some(d);
  }

  lemma {:induction false} BuiltMore(p: Plan, pools: nat -> u64, slices: seq<Geometry>, cs: seq<Config>, c: Config)
    requires Built(p, pools, slices, cs) && |cs| < |slices|
    requires p.Depth(|cs|) > 0 && IsRingSize(c.cap, slices[|cs|].count)
             && c == p.Queue(|cs|, slices[|cs|], pools(|cs|), c.cap)
    ensures Built(p, pools, slices, cs + [c])
  {
    hide IsRingSize;
    var more := cs + [c];
    forall i | 0 <= i < |more|
      ensures && p.Depth(i) > 0 && IsRingSize(more[i].cap, slices[i].count)
              && more[i] == p.Queue(i, slices[i], pools(i), more[i].cap)
    {
      if i < |cs| {
        assert more[i] == cs[i];
      }
    }
  }

  lemma {:induction false} NoneBuilt(p: Plan, pools: nat -> u64, slices: seq<Geometry>)
    ensures Built(p, pools, slices, [])
  {
  }

  lemma {:induction false} MappedHas(p: Plan)
    requires p.Mapped()
    ensures p.Queues() > 0
  {
  }

  lemma {:induction false} DepthsOf(p: Plan, pools: nat -> u64, slices: seq<Geometry>, cs: seq<Config>)
    requires Built(p, pools, slices, cs)
    ensures forall i {:trigger p.Depth(i)} :: 0 <= i < |cs| ==> p.Depth(i) > 0
  {
    hide IsRingSize;
    forall i | 0 <= i < |cs|
      ensures p.Depth(i) > 0
    {
      assert cs[i] == cs[i];
    }
  }

  /** Every share has a frame exactly when there are as many frames as shares. */
  lemma {:induction false} SharesPositive(frames: nat, n: nat)
    requires n > 0
    ensures frames / n > 0 <==> frames >= n
  {
    assert frames == n * (frames / n) + frames % n;
    if frames / n > 0 {
      MulAtLeast(frames / n, n);
    }
  }

  /** Shares of a frame or more come to a frame a share or more. */
  lemma {:induction false} EnoughFrames(slices: seq<Geometry>, frames: nat, i: nat)
    requires EndToEnd(slices, frames) && i < |slices| && forall k {:trigger slices[k]} :: 0 <= k < |slices| ==>
             slices[k].count > 0
    ensures slices[i].first + slices[i].count >= i + 1 && (i == |slices| - 1 ==> frames >= |slices|)
  {
    if i > 0 {
      EnoughFrames(slices, frames, i - 1);
    }
  }

  /** What `Open` builds is a device, and its queues share the region out among them. */
  lemma {:induction false} OpenedIsValid(p: Plan, pools: nat -> u64, slices: seq<Geometry>, dev: Device)
    requires p.Mapped() && (forall i, j :: 0 <= i < j < p.Queues() ==> pools(i) != pools(j))
    requires EndToEnd(slices, p.frames) && |slices| == |dev.cs| == |dev.rx| == p.Queues()
             && Built(p, pools, slices, dev.cs)
    ensures Partitioned(dev)
  {
    hide EndToEnd, RawConfig.Valid;
    assert dev.Valid() by {
      forall i | 0 <= i < |dev.cs|
        ensures dev.cs[i].g.count <= dev.cs[i].cap && SameRegion(dev.cs[0], dev.cs[i])
      {
        assert dev.cs[0] == p.Queue(0, slices[0], pools(0), dev.cs[0].cap);
      }
      forall i, j | 0 <= i < j < |dev.cs|
        ensures dev.cs[i].poolVA != dev.cs[j].poolVA
      {
        assert pools(i) != pools(j);
      }
    }
    DealtPartitions(dev, slices, p.frames);
  }

  /** A queue as `Open` accepts it: one transmit queue of depth 8192 beside three receive queues of depth 64. */
  ghost function Lopsided(): (c: Config)
    ensures c.depth == 8192 && c.cap == 4096 && c.regionLen / c.l.frameSize == 8384
    ensures c.g.count == 8384 / 4 && IsRingSize(c.cap, c.g.count)
    ensures c.regionLen / c.l.frameSize >= 1 * 8192 + 3 * 64
  {
    assert Pow2(6) == 64;
    Pow2Add(6, 6);
    Pow2Add(6, 5);
    assert Pow2(5) == 32;
    LeastPow2(12, 2096);
    RawConfig(Mbuf.Layout(2048, 64, 128, 128), Geometry(0, 2096, 2048), false, 8384 * 2048, 0, 0, 8192, 4096)
  }

  /**
   The deal is even while the depths need not be, so the ring sized from a
   queue's own frames can be smaller than its depth, and then a forwarded batch
   overflows it.
   */
  lemma {:induction false} RingCanBeTooSmall()
    ensures exists ds :: DistinctFrames(Lopsided(), ds) && !FitsBack(Lopsided(), ds)
  {
    RingCoversIff(Lopsided());
  }

  /** A driver that writes a data offset past the frame has the next frame's bytes delivered. */
  lemma {:induction false} WildOffset()
    ensures exists c: Config, b: bytes, va: u64 ::
              |b| == c.regionLen && InRegion(c, va) && Classify(c, b, va).Delivered? &&
              FrameStart(Classify(c, b, va).desc.addr, c.l.frameSize) != FrameOfVA(c, va)
  {
    assert IsPow2(1024) by { assert Pow2(10) == 1024; }
    assert IsPow2(1) by { assert Pow2(0) == 1; }
    var c: Config := RawConfig(Mbuf.Layout(1024, 64, 128, 128), Geometry(0, 2, 1024), false, 2048, 0, 0, 1, 1);
    hide RawConfig.Valid, IsPow2, Pow2;
    var zero := seq(2048, _ => 0);
    var b := Mbuf.PreparedTx(zero, 64, 0, 1024, 1);
    Mbuf.PreparedReadsBack(zero, 64, 0, 1024, 1);
    WildlyPlaced(c, b);
  }

  /** A header of frame 0 that puts the data a whole frame further on. */
  lemma {:induction false} WildlyPlaced(c: Config, b: bytes)
    requires IsPow2(1024) && c.l == Mbuf.Layout(1024, 64, 128, 128) && c.regionLen == 2048 == |b| && c.regionVA == 0
    requires Mbuf.RxRead(b, 64) == Mbuf.Received(1024, 1, 1, 0)
    ensures InRegion(c, 64) && Classify(c, b, 64).Delivered?
    ensures FrameStart(Classify(c, b, 64).desc.addr, 1024) != FrameOfVA(c, 64)
  {
    hide Mbuf.RxRead, RawConfig.Valid, IsPow2;
    FrameUnique(64, 0, 1024);
    FrameUnique(192 + 1024, 1024, 1024);
    var d := Desc(192 + 1024, 1, RxOptions(0));
    assert InPacketArea(c, d, 1024);
    DescOKMeans(c, d);
    assert Classify(c, b, 64) == Delivered(d);
  }
}
