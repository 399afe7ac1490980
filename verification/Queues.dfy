/**
 The transmit and receive queues of the DPDK backend, as the objects they are:
 scratch arrays, a free list, rings shared with the driver, and bytes of the
 region written in place. Every method is proved to compute the function of the
 same name in `QueueSpec`. What the driver answers is a parameter.
 */
module Queues {
  import opened Words
  import opened Bytes
  import opened Pool
  import opened Rings
  import opened QueueSpec
  import Mbuf

  /** Pushes a run of frames, in order. */
  method PushEach(pool: Frames, c: Config, frames: seq<nat>)
    requires pool.Valid() && pool.g == c.g && pool.checked == c.checked
    modifies pool`free, pool`rejected, pool.bits
    ensures pool.Valid() && pool.free == PushedAll(c.g, c.checked, old(pool.free), frames)
  {
    for i := 0 to |frames|
      invariant pool.Valid() && pool.free == PushedAll(c.g, c.checked, old(pool.free), frames[..i])
    {
      pool.Push(frames[i]);
      PushedStep(c.g, c.checked, old(pool.free), frames, i);
    }
    assert frames[..|frames|] == frames;
  }

  lemma {:induction false} FramesOK(c: Config, free: seq<nat>)
    requires ListOK(c.g, free)
    ensures forall k :: 0 <= k < |free| ==> IsFrame(c, free[k]) && free[k] + c.l.DataStart() < TWO64
  {
    forall k | 0 <= k < |free|
      ensures IsFrame(c, free[k]) && free[k] + c.l.DataStart() < TWO64
    {
      assert c.g.Holds(free[k]);
      FrameFits(c, free[k]);
    }
  }

  /** Turns addresses the driver handed back into frames, noting any that are not the region's. */
  method Locate(c: Config, addrs: seq<u64>) returns (frames: seq<nat>, foreign: bool)
    ensures frames == Drained(c, addrs) && foreign == AnyForeign(c, addrs)
  {
    frames, foreign := [], false;
    for i := 0 to |addrs|
      invariant frames == Drained(c, addrs[..i]) && foreign == AnyForeign(c, addrs[..i])
    {
      assert addrs[..i + 1][..i] == addrs[..i];
      assert addrs[..i + 1][i] == addrs[i];
      if InRegion(c, addrs[i]) {
        frames := frames + [FrameStart(addrs[i] - c.regionVA, c.l.frameSize)];
      } else {
        foreign := true;
      }
    }
    assert addrs[..|addrs|] == addrs;
  }

  /** Writes the headers and the driver's addresses of the longest good prefix of `descs`. */
  method Prepare(c: Config, region: array<u8>, descs: seq<Desc>) returns (mbufs: seq<u64>, built: nat)
    requires region.Length == c.regionLen
    modifies region
    ensures built == GoodPrefix(c, descs)
    ensures region[..] == StampAll(c, old(region[..]), descs[..built])
    ensures mbufs == HeaderVAs(c, descs[..built])
  {
    hide Stamp;
    mbufs, built := [], 0;
    while built < |descs| && DescOK(c, descs[built])
      invariant 0 <= built <= |descs| && |mbufs| == built
      invariant forall i :: 0 <= i < built ==> DescOK(c, descs[i])
      invariant region[..] == StampAll(c, old(region[..]), descs[..built])
      invariant forall i :: 0 <= i < built ==> mbufs[i] == HeaderVA(c, descs[i].addr)
    {
      var va := PrepareOne(c, region, descs[built]);
      mbufs := mbufs + [va];
      assert descs[..built + 1][..built] == descs[..built];
      built := built + 1;
    }
  }

  method PrepareOne(c: Config, region: array<u8>, d: Desc) returns (va: u64)
    requires region.Length == c.regionLen && DescOK(c, d)
    modifies region
    ensures region[..] == Stamp(c, old(region[..]), d) && va == HeaderVA(c, d.addr)
  {
    var f := FrameStart(d.addr, c.l.frameSize);
    FrameFits(c, f);
    Mbuf.PrepareTx(region, f + c.l.objHeader, c.poolVA, (d.addr - f - c.l.BufStart()) % 0x10000, d.len);
    VARoundTrip(c, f);
    va := c.regionVA + (f + c.l.objHeader);
  }

  /** Names the packet area of each frame. */
  method Name(c: Config, frames: seq<nat>) returns (descs: seq<Desc>)
    requires forall k :: 0 <= k < |frames| ==> IsFrame(c, frames[k])
    ensures FramesOf(c, descs) == frames
    ensures forall k :: 0 <= k < |descs| ==> descs[k].addr == frames[k] + c.l.DataStart() && descs[k].len == 0
  {
    descs := [];
    for i := 0 to |frames|
      invariant |descs| == i && FramesOf(c, descs) == frames[..i]
      invariant forall k :: 0 <= k < i ==> descs[k].addr == frames[k] + c.l.DataStart() && descs[k].len == 0
    {
      FrameFits(c, frames[i]);
      FrameUnique(frames[i] + c.l.DataStart(), frames[i], c.l.frameSize);
      descs := descs + [Desc(frames[i] + c.l.DataStart(), 0, 0)];
    }
    assert frames[..|frames|] == frames;
  }

  /** Readies the headers of `frames` for receiving. */
  method ResetFrames(c: Config, region: array<u8>, frames: seq<nat>) returns (vas: seq<u64>)
    requires region.Length == c.regionLen
    requires forall i :: 0 <= i < |frames| ==> IsFrame(c, frames[i])
    modifies region
    ensures region[..] == ResetAll(c, old(region[..]), frames) && vas == FrameVAs(c, frames)
  {
    vas := [];
    for i := 0 to |frames|
      invariant region[..] == ResetAll(c, old(region[..]), frames[..i])
      invariant |vas| == i && forall j :: 0 <= j < i ==> vas[j] == HeaderVA(c, frames[j])
    {
      var va := ResetOne(c, region, frames[i]);
      vas := vas + [va];
      assert frames[..i + 1][..i] == frames[..i];
    }
    assert frames[..|frames|] == frames;
  }

  method ResetOne(c: Config, region: array<u8>, f: nat) returns (va: u64)
    requires region.Length == c.regionLen && IsFrame(c, f)
    modifies region
    ensures f + c.l.objHeader + Mbuf.SIZE <= region.Length
    ensures region[..] == Mbuf.ResetForRx(old(region[..]), f + c.l.objHeader, c.l.headroom, c.poolVA)
    ensures va == HeaderVA(c, f)
  {
    FrameFits(c, f);
    Mbuf.ResetRx(region, f + c.l.objHeader, c.l.headroom, c.poolVA);
    FrameUnique(f, f, c.l.frameSize);
    VARoundTrip(c, f);
    va := c.regionVA + (f + c.l.objHeader);
  }

  /** Reads the header behind one delivered address. */
  method ClassifyNow(c: Config, b: bytes, va: u64) returns (o: Outcome)
    requires |b| == c.regionLen
    ensures o == Classify(c, b, va)
  {
    hide Mbuf.RxRead, DescOK, RxOptions, RawConfig.Valid, IsPow2;
    SmallRegion(c);
    if !InRegion(c, va) {
      return Foreign;
    }
    var f := FrameStart(va - c.regionVA, c.l.frameSize);
    FrameFits(c, f);
    var r := Mbuf.RxRead(b, f + c.l.objHeader);
    if r.nbSegs != 1 {
      return Refused(f);
    }
    var d := Desc(f + c.l.BufStart() + r.dataOff, r.dataLen, RxOptions(r.olFlags));
    if !DescOK(c, d) {
      return Refused(f);
    }
    return Delivered(d);
  }

  /** Sorts a burst into packets to deliver, frames to take back, and addresses that are nobody's. */
  method SortBurst(c: Config, b: bytes, burst: seq<u64>)
    returns (descs: seq<Desc>, refused: seq<nat>, taken: nat, foreign: bool)
    requires |b| == c.regionLen
    ensures descs == Descs(c, b, burst) && refused == Refusals(c, b, burst)
    ensures taken == TakenBy(c, burst) && foreign == AnyForeign(c, burst)
  {
    descs, refused, taken, foreign := [], [], 0, false;
    for i := 0 to |burst|
      invariant descs == Descs(c, b, burst[..i]) && refused == Refusals(c, b, burst[..i])
      invariant taken == TakenBy(c, burst[..i]) && foreign == AnyForeign(c, burst[..i])
    {
      assert burst[..i + 1][..i] == burst[..i];
      assert burst[..i + 1][i] == burst[i];
      var o := ClassifyNow(c, b, burst[i]);
      if o.Foreign? {
        foreign := true;
      } else {
        taken := taken + 1;
        if o.Refused? {
          refused := refused + [o.frame];
        } else {
          descs := descs + [o.desc];
        }
      }
    }
    assert burst[..|burst|] == burst;
  }

  class Tx {
    const c: Config
    const region: array<u8>
    const pool: Frames
    const returned: Ring
    var mbufs: seq<u64>
    var inFlight: int
    var dead: bool
    var closed: bool

    ghost predicate Valid()
      reads this, pool, pool.bits, returned, returned.buf
    {
      && region.Length == c.regionLen
      && pool.Valid() && pool.g == c.g && pool.checked == c.checked
      && returned.Valid() && returned.Cap() == c.cap
      && region as object != returned.buf as object
      && pool.bits as object != returned.buf as object && pool.bits as object != region as object
    }

    ghost function V(): View
      reads this, pool, returned
    {
      View(pool.free, [], returned.contents, inFlight, dead, closed)
    }

    constructor (c: Config, region: array<u8>, returned: Ring)
      requires region.Length == c.regionLen
      requires returned.Valid() && returned.Cap() == c.cap && region as object != returned.buf as object
      ensures Valid() && this.c == c && this.region == region && this.returned == returned
      ensures V() == View(Full(c.g), [], returned.contents, 0, false, false)
    {
      this.c, this.region, this.returned := c, region, returned;
      pool := new Frames(c.g, c.checked);
      mbufs := [];
      inFlight, dead, closed := 0, false, false;
    }

    function NumFreeSlots(): nat
      reads this
    {
      if closed || c.depth <= inFlight then 0 else c.depth - inFlight
    }

    /** Takes up to `n` frames, never more than the next `Transmit` could accept. */
    method Alloc(n: int) returns (descs: seq<Desc>)
      requires Valid()
      modifies pool`free, pool.bits
      ensures Valid() && V() == QueueSpec.Alloc(c, old(V()), n).0
      ensures var taken := QueueSpec.Alloc(c, old(V()), n).1;
              FramesOf(c, descs) == taken &&
              forall k :: 0 <= k < |descs| ==> descs[k].addr == taken[k] + c.l.DataStart() && descs[k].len == 0
      ensures |descs| == if closed || dead || n <= 0 || inFlight >= c.depth then 0
                         else Min(Min(n, c.depth - inFlight), |old(pool.free)|)
    {
      hide FramesOf, IsFrame;
      descs := [];
      if closed || n <= 0 || dead {
        return;
      }
      var m := Min(n, NumFreeSlots());
      if m == 0 {
        return;
      }
      m := Min(m, pool.Len());
      if m == 0 {
        return;
      }
      FramesOK(c, pool.free);
      var addrs := pool.Pop(m, []);
      descs := Name(c, addrs);
    }

    /**
     Offers the longest good prefix that fits to the driver, whose answer is
     `answer`, and records what it took.
     */
    method Transmit(descs: seq<Desc>, answer: int) returns (sent: nat, built: nat)
      requires Valid()
      modifies this`inFlight, this`mbufs, region
      ensures Valid()
      ensures built == Offered(c, old(V()), descs) && sent == (if 0 <= answer <= built then answer else 0)
      ensures inFlight == old(inFlight) + sent
      ensures built < |descs| && built < c.depth && built < c.depth - old(inFlight) && !closed && !dead ==>
                !DescOK(c, descs[built])
      ensures V() == QueueSpec.Transmit(c, old(V()), sent)
      ensures region[..] == StampAll(c, old(region[..]), descs[..built])
      ensures mbufs == HeaderVAs(c, descs[..built])
    {
      hide Stamp, DescOK, StampAll, HeaderVAs, GoodPrefix;
      mbufs, built, sent := [], 0, 0;
      NoneOffered(c, V(), descs, region[..]);
      if closed || dead {
        return;
      }
      var n := Min(|descs|, NumFreeSlots());
      if n == 0 {
        return;
      }
      n := Min(n, c.depth);
      mbufs, built := Prepare(c, region, descs[..n]);
      assert descs[..n][..built] == descs[..built] && (built < n ==> descs[..n][built] == descs[built]);
      if built == 0 {
        return;
      }
      sent := if answer < 0 || answer > built then 0 else answer;
      inFlight := inFlight + sent;
    }

    /**
     Takes up to `max` finished addresses off the returned ring. When the ring
     is empty with frames outstanding the driver is asked first, and frees
     `poked` on the spot.
     */
    method Drain(max: int, poked: seq<u64>) returns (frames: seq<nat>)
      requires Valid()
      modifies this`inFlight, this`dead, returned, returned.buf
      ensures Valid()
      ensures var v := if Asks(old(V()), max) then Enqueued(c, old(V()), poked) else old(V());
              && V() == QueueSpec.Reclaim(c, v, max).0 && frames == QueueSpec.Reclaim(c, v, max).1
              && returned.contents == v.returned[if closed || max <= 0 then 0 else Min(max, |v.returned|)..]
    {
      Poke(max, poked);
      var addrs := TakeReturned(max);
      var foreign;
      frames, foreign := Locate(c, addrs);
      if foreign {
        dead := true;
      }
      inFlight := inFlight - |frames|;
    }

    /** Asks the driver once, if there is nothing to take and something outstanding. */
    method Poke(max: int, poked: seq<u64>)
      requires Valid()
      modifies returned, returned.buf
      ensures Valid()
      ensures V() == if Asks(old(V()), max) then Enqueued(c, old(V()), poked) else old(V())
    {
      if !closed && max > 0 && returned.Len() == 0 && inFlight > 0 {
        var _ := returned.MpEnqueue(poked);
      }
    }

    method TakeReturned(max: int) returns (addrs: seq<u64>)
      requires Valid()
      modifies returned
      ensures Valid()
      ensures var k := DrainCount(old(V()), max);
              addrs == old(returned.contents)[..k] && V() == old(V()).(returned := old(returned.contents)[k..])
    {
      if closed || max <= 0 {
        return [];
      }
      addrs := returned.Pop(Min(returned.Len(), max), []);
    }

    /** Returns finished frames to this queue's own free list. */
    method Complete(max: int, poked: seq<u64>) returns (n: nat)
      requires Valid()
      modifies this`inFlight, this`dead, returned, returned.buf, pool`free, pool`rejected, pool.bits
      ensures Valid()
      ensures var v := if Asks(old(V()), max) then Enqueued(c, old(V()), poked) else old(V());
              V() == QueueSpec.Complete(c, v, max) && n == |QueueSpec.Reclaim(c, v, max).1|
    {
      var frames := Drain(max, poked);
      PushEach(pool, c, frames);
      n := |frames|;
    }

    /** Drains the returned ring into descriptors, appended to `out`. */
    method Reclaim(max: int, poked: seq<u64>, out: seq<Desc>) returns (descs: seq<Desc>)
      requires Valid()
      modifies this`inFlight, this`dead, returned, returned.buf
      ensures Valid()
      ensures var v := if Asks(old(V()), max) then Enqueued(c, old(V()), poked) else old(V());
              && V() == QueueSpec.Reclaim(c, v, max).0
              && var frames := QueueSpec.Reclaim(c, v, max).1;
                 && |descs| == |out| + |frames| && descs[..|out|] == out
                 && FramesOf(c, descs[|out|..]) == frames
    {
      var frames := Drain(max, poked);
      DrainedAreFrames(c, frames, V(), old(V()), max, poked);
      var named := Name(c, frames);
      descs := out + named;
      assert descs[|out|..] == named;
    }

    method Free(descs: seq<Desc>)
      requires Valid()
      modifies pool`free, pool`rejected, pool.bits
      ensures Valid() && V() == GiveBack(c, old(V()), descs)
    {
      ghost var fs := FramesOf(c, descs);
      for i := 0 to |descs|
        invariant Valid() && V() == old(V()).(free := PushedAll(c.g, c.checked, old(pool.free), fs[..i]))
      {
        pool.Push(pool.FrameBase(descs[i].addr));
        PushedStep(c.g, c.checked, old(pool.free), fs, i);
      }
      assert fs[..|descs|] == fs;
    }
  }

  /** Every address that yields a frame yields one of the region's. */
  lemma {:induction false} DrainedInRegion(c: Config, vas: seq<u64>)
    ensures forall k :: 0 <= k < |Drained(c, vas)| ==> IsFrame(c, Drained(c, vas)[k])
    decreases |vas|
  {
    if vas != [] {
      DrainedInRegion(c, vas[..|vas| - 1]);
    }
  }

  lemma {:induction false} DrainedAreFrames(c: Config, frames: seq<nat>, v': View, v: View, max: int, poked: seq<u64>)
    requires |v.returned| <= c.cap
    requires (v', frames) == QueueSpec.Reclaim(c, if Asks(v, max) then Enqueued(c, v, poked) else v, max)
    ensures forall k :: 0 <= k < |frames| ==> IsFrame(c, frames[k])
  {
    var w := if Asks(v, max) then Enqueued(c, v, poked) else v;
    DrainedInRegion(c, w.returned[..DrainCount(w, max)]);
  }

  lemma {:induction false} NothingFilled(c: Config, v: View, b: bytes, n: int)
    requires |v.supply| <= c.cap && |b| == c.regionLen && FillCount(v, n) == 0
    requires forall i :: 0 <= i < |v.free| ==> IsFrame(c, v.free[i])
    ensures QueueSpec.Fill(c, v, n).0 == v && QueueSpec.Fill(c, v, n).1 == 0
    ensures Taken(v.free, 0) == [] && ResetAll(c, b, []) == b
  {
    assert Kept(v.free, 0) == v.free && Taken(v.free, 0) == [];
    assert v.supply + [] == v.supply;
  }

  lemma {:induction false} Filled(c: Config, v: View, n: int, k: nat, v': View)
    requires |v.supply| <= c.cap && k == FillCount(v, n)
    requires forall i :: 0 <= i < |v.free| ==> IsFrame(c, v.free[i])
    requires var addrs, posted := Taken(v.free, k), Min(k, c.cap - |v.supply|);
             v' == v.(free := PushedAll(c.g, c.checked, Kept(v.free, k), addrs[posted..]),
                      supply := v.supply + FrameVAs(c, addrs)[..posted],
                      ledger := v.ledger + posted)
    ensures v' == QueueSpec.Fill(c, v, n).0 && Min(k, c.cap - |v.supply|) == QueueSpec.Fill(c, v, n).1
  {
  }

  class Rx {
    const c: Config
    const region: array<u8>
    const pool: Frames
    const supply: Ring
    const returned: Ring
    var outstanding: int
    var dead: bool
    var closed: bool

    ghost predicate Valid()
      reads this, pool, pool.bits, returned, returned.buf, supply, supply.buf
    {
      && region.Length == c.regionLen
      && pool.Valid() && pool.g == c.g && pool.checked == c.checked
      && returned.Valid() && returned.Cap() == c.cap
      && supply.Valid() && supply.Cap() == c.cap
      && supply != returned && supply.buf != returned.buf
      && region as object != supply.buf as object && region as object != returned.buf as object
      && pool.bits as object != supply.buf as object && pool.bits as object != returned.buf as object
      && pool.bits as object != region as object
    }

    ghost function V(): View
      reads this, pool, returned, supply
    {
      View(pool.free, supply.contents, returned.contents, outstanding, dead, closed)
    }

    constructor (c: Config, region: array<u8>, supply: Ring, returned: Ring)
      requires region.Length == c.regionLen
      requires returned.Valid() && returned.Cap() == c.cap && region as object != returned.buf as object
      requires supply.Valid() && supply.Cap() == c.cap && region as object != supply.buf as object
      requires supply != returned && supply.buf != returned.buf
      ensures Valid() && this.c == c && this.region == region
      ensures this.supply == supply && this.returned == returned
      ensures V() == View(Full(c.g), supply.contents, returned.contents, 0, false, false)
    {
      this.c, this.region, this.supply, this.returned := c, region, supply, returned;
      pool := new Frames(c.g, c.checked);
      outstanding, dead, closed := 0, false, false;
    }

    /** Readies up to `n` frames and posts them to the supply. */
    method Fill(n: int) returns (posted: nat)
      requires Valid()
      requires forall k :: 0 <= k < |pool.free| ==> IsFrame(c, pool.free[k])
      modifies this`outstanding, pool`free, pool`rejected, pool.bits, region, supply`tail, supply`contents, supply.buf
      ensures Valid() && V() == QueueSpec.Fill(c, old(V()), n).0 && posted == QueueSpec.Fill(c, old(V()), n).1
      ensures posted == if closed || dead || n <= 0 then 0
                        else Min(Min(n, |old(pool.free)|), c.cap - |old(supply.contents)|)
      ensures region[..] == ResetAll(c, old(region[..]), Taken(old(pool.free), FillCount(old(V()), n)))
    {
      hide QueueSpec.Fill, ResetAll, PushedAll, FrameVAs;
      posted := 0;
      ghost var v := V();
      if closed || n <= 0 || dead {
        NothingFilled(c, v, region[..], n);
      } else {
        var k := Min(n, pool.Len());
        var addrs, vas := Ready(k);
        posted := Post(addrs, vas);
        Filled(c, v, n, k, V());
      }
    }

    /** Takes `k` frames off the free list and readies their headers. */
    method Ready(k: nat) returns (addrs: seq<nat>, vas: seq<u64>)
      requires Valid() && k <= |pool.free|
      requires forall i :: 0 <= i < |pool.free| ==> IsFrame(c, pool.free[i])
      modifies pool`free, pool.bits, region
      ensures Valid() && addrs == Taken(old(pool.free), k) && vas == FrameVAs(c, addrs)
      ensures V() == old(V()).(free := Kept(old(pool.free), k))
      ensures region[..] == ResetAll(c, old(region[..]), addrs)
    {
      addrs := pool.Pop(k, []);
      vas := ResetFrames(c, region, addrs);
    }

    /** Posts readied frames; what the supply refuses goes back on the free list. */
    method Post(addrs: seq<nat>, vas: seq<u64>) returns (posted: nat)
      requires Valid() && |addrs| == |vas|
      modifies this`outstanding, pool`free, pool`rejected, pool.bits, supply`tail, supply`contents, supply.buf
      ensures Valid() && posted == Min(|vas|, c.cap - |old(supply.contents)|)
      ensures V() == old(V()).(free := PushedAll(c.g, c.checked, old(pool.free), addrs[posted..]),
                               supply := old(supply.contents) + vas[..posted],
                               ledger := old(outstanding) + posted)
    {
      posted := supply.Push(vas);
      PushEach(pool, c, addrs[posted..]);
      outstanding := outstanding + posted;
    }

    /**
     Takes up to `max` packets. The driver's burst answers `got`, having written
     `burst`; an answer outside the room it was given delivers nothing.
     */
    method Receive(max: int, got: int, burst: seq<u64>) returns (descs: seq<Desc>)
      requires Valid() && |burst| == c.depth
      modifies this`outstanding, this`dead, pool`free, pool`rejected, pool.bits
      ensures Valid()
      ensures var lim := Min(max, c.depth);
              if old(closed || dead) || max <= 0 || got <= 0 || got > lim
              then V() == old(V()) && descs == []
              else V() == QueueSpec.Receive(c, region[..], old(V()), burst[..got]) &&
                   descs == Descs(c, region[..], burst[..got])
    {
      hide Refusals, Descs, TakenBy, AnyForeign, PushedAll;
      descs := [];
      if closed || max <= 0 || dead {
        return;
      }
      var lim := Min(max, c.depth);
      if got <= 0 || got > lim {
        return;
      }
      var refused, taken, foreign;
      descs, refused, taken, foreign := SortBurst(c, region[..], burst[..got]);
      PushEach(pool, c, refused);
      if foreign {
        dead := true;
      }
      outstanding := outstanding - taken;
    }

    method Recycle(descs: seq<Desc>)
      requires Valid()
      modifies pool`free, pool`rejected, pool.bits
      ensures Valid() && V() == GiveBack(c, old(V()), descs)
    {
      ghost var fs := FramesOf(c, descs);
      for i := 0 to |descs|
        invariant Valid() && V() == old(V()).(free := PushedAll(c.g, c.checked, old(pool.free), fs[..i]))
      {
        pool.Push(pool.FrameBase(descs[i].addr));
        PushedStep(c.g, c.checked, old(pool.free), fs, i);
      }
      assert fs[..|descs|] == fs;
    }

    /** Takes back what the driver freed into this queue's pool instead of delivering. */
    method DrainReturned() returns (back: nat)
      requires Valid()
      modifies this`outstanding, this`dead, returned, pool`free, pool`rejected, pool.bits
      ensures Valid() && V() == QueueSpec.DrainReturned(c, old(V()))
      ensures back == |Drained(c, old(V()).returned)|
    {
      hide Drained, PushedAll, AnyForeign;
      ghost var v := V();
      var addrs := TakeReturned();
      assert v.returned[..|v.returned|] == v.returned && v.returned[|v.returned|..] == [];
      var frames, foreign := Locate(c, addrs);
      PushEach(pool, c, frames);
      if foreign {
        dead := true;
      }
      back := |frames|;
      outstanding := outstanding - back;
    }

    method TakeReturned() returns (addrs: seq<u64>)
      requires Valid()
      modifies returned
      ensures Valid()
      ensures addrs == old(returned.contents) && V() == old(V()).(returned := [])
    {
      addrs := returned.Pop(returned.Len(), []);
    }
  }
}
