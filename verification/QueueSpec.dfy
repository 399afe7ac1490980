/**
 What one DPDK queue does to its free list, its two rings and its ledger, as
 functions on values. The classes in `Queues` are proved to compute these, and
 the many-queue machine in `Ownership` takes them as its steps.
 */
module QueueSpec {
  import opened Words
  import opened Bytes
  import opened Pool
  import Mbuf

  /** A frame descriptor: an offset in the region, a length, option bits. */
  datatype Desc = Desc(addr: u64, len: u32, options: u32)

  const OPT_CHECKSUM_OK: u32 := 2
  const OPT_L3_CHECKSUM_OK: u32 := 4

  /** One queue's share of the device. */
  datatype RawConfig = RawConfig(
    l: Mbuf.Layout, g: Geometry, checked: bool,
    regionLen: nat, regionVA: nat, poolVA: u64, depth: nat, cap: nat)
  {
    ghost predicate Valid() {
      && l.Valid() && g.Valid() && g.frameSize == l.frameSize
      && regionLen % l.frameSize == 0 && g.End() <= regionLen
      && regionVA + regionLen <= TWO64 && regionLen <= 0x1_0000_0000_0000
      && l.headroom < TWO16
      && depth > 0 && IsPow2(cap) && cap <= TWO31
    }
  }

  /** A configuration the queue constructors accept. */
  type Config = c: RawConfig | c.Valid() ghost witness SmallConfig()

  ghost function SmallConfig(): (c: RawConfig)
    ensures c.Valid()
  {
    assert IsPow2(1024) by { assert Pow2(10) == 1024; }
    assert IsPow2(1) by { assert Pow2(0) == 1; }
    RawConfig(Mbuf.Layout(1024, 64, 128, 128), Geometry(0, 1, 1024), false, 1024, 0, 0, 1, 1)
  }

  /** Whether `f` is the start of a frame of the region. */
  predicate IsFrame(c: Config, f: nat) {
    f % c.l.frameSize == 0 && f < c.regionLen
  }

  /** The address the driver knows frame `f` by: that of its header. */
  function VA(c: Config, f: nat): nat { c.regionVA + f + c.l.objHeader }

  predicate InRegion(c: Config, va: nat) { c.regionVA <= va < c.regionVA + c.regionLen }

  function FrameOfVA(c: Config, va: nat): nat
    requires InRegion(c, va)
  {
    FrameStart(va - c.regionVA, c.l.frameSize)
  }

  /** One queue as its owner sees it; a transmit queue never uses `supply`. */
  datatype View = View(
    free: seq<nat>, supply: seq<u64>, returned: seq<u64>,
    ledger: int, dead: bool, closed: bool)

  // ------------------------------------------------------------- addresses

  lemma {:induction false} MultipleGap(a: nat, b: nat, m: nat)
    requires m > 0 && a % m == 0 && b % m == 0 && a < b
    ensures a + m <= b
  {
    assert a == m * (a / m) && b == m * (b / m);
    var d := b / m - a / m;
    assert d * m == b - a;
    MulAtLeast(d, m);
  }

  /** A frame of the region fits in it whole, header first. */
  lemma {:induction false} FrameFits(c: Config, f: nat)
    requires IsFrame(c, f)
    ensures f + c.l.frameSize <= c.regionLen
    ensures f + c.l.objHeader + Mbuf.SIZE <= f + c.l.BufStart() < f + c.l.frameSize
  {
    MultipleGap(f, c.regionLen, c.l.frameSize);
  }

  /** The address arithmetic on the way back undoes the one on the way out. */
  lemma {:induction false} VARoundTrip(c: Config, f: nat)
    requires IsFrame(c, f)
    ensures InRegion(c, VA(c, f)) && VA(c, f) < TWO64 && FrameOfVA(c, VA(c, f)) == f
  {
    FrameFits(c, f);
    var m := c.l.frameSize;
    assert f == m * (f / m);
    assert f / m * m == m * (f / m);
    ModUnique(f + c.l.objHeader, m, f / m, c.l.objHeader);
  }

  /** Whether a descriptor may be handed to the driver. The subtraction is 64-bit. */
  predicate DescOK(c: Config, d: Desc)
  {
    if d.addr >= c.regionLen then false
    else
      var within := Within(d.addr, c.l.frameSize);
      if within < c.l.BufStart() then false
      else (d.len - 1) % 0x1_0000_0000_0000_0000 < c.l.frameSize - within
  }

  lemma {:induction false} LengthTest(len: u32, room: nat)
    requires room < TWO64
    ensures (len - 1) % 0x1_0000_0000_0000_0000 < room <==> 1 <= len <= room
  {
  }

  /** Whether `d` names a non-empty range inside the packet area of frame `f`. */
  predicate InPacketArea(c: Config, d: Desc, f: nat)
  {
    IsFrame(c, f) && d.len >= 1 && f + c.l.BufStart() <= d.addr && d.addr + d.len <= f + c.l.frameSize
  }

  /** The check accepts exactly the non-empty ranges inside one frame's packet area. */
  lemma {:induction false} DescOKMeans(c: Config, d: Desc)
    ensures DescOK(c, d) <==> exists f: nat :: InPacketArea(c, d, f)
    ensures DescOK(c, d) ==> InPacketArea(c, d, FrameStart(d.addr, c.l.frameSize))
  {
    var f0 := FrameStart(d.addr, c.l.frameSize);
    DescOKOwnFrame(c, d);
    if f: nat :| InPacketArea(c, d, f) {
      FrameUnique(d.addr, f, c.l.frameSize);
    }
  }

  lemma {:induction false} DescOKOwnFrame(c: Config, d: Desc)
    ensures DescOK(c, d) <==> InPacketArea(c, d, FrameStart(d.addr, c.l.frameSize))
  {
    var m := c.l.frameSize;
    var f := FrameStart(d.addr, m);
    if d.addr < c.regionLen {
      FrameFits(c, f);
      LengthTest(d.len, m - (d.addr - f));
    } else if IsFrame(c, f) {
      FrameFits(c, f);
    }
  }

  /**
   A descriptor accepted for sending survives the header: reading the header
   back gives the same address and length exactly when neither is truncated to
   sixteen bits.
   */
  lemma {:induction false} SurvivesHeader(c: Config, b: bytes, d: Desc)
    requires |b| == c.regionLen && DescOK(c, d)
    ensures var f := FrameStart(d.addr, c.l.frameSize);
            var off := d.addr - f - c.l.BufStart();
            && off >= 0 && f + c.l.objHeader + Mbuf.SIZE <= |b|
            && var r := Mbuf.RxRead(Stamp(c, b, d), f + c.l.objHeader);
               (r.nbSegs == 1 && f + c.l.BufStart() + r.dataOff == d.addr && r.dataLen == d.len)
               <==> (off < TWO16 && d.len < TWO16)
  {
    hide Mbuf.RxRead, Mbuf.PreparedTx, Mbuf.Unshared, Mbuf.PoolOf, Mbuf.Get, RawConfig.Valid, IsPow2;
    SmallRegion(c);
    var f := FrameStart(d.addr, c.l.frameSize);
    FrameFits(c, f);
    var off: nat := d.addr - f - c.l.BufStart();
    Mbuf.PreparedReadsBack(b, f + c.l.objHeader, c.poolVA, off % 0x10000, d.len);
    Truncates(off);
    Truncates(d.len);
  }

  lemma {:induction false} Truncates(x: nat)
    ensures x % 0x10000 == x <==> x < TWO16
  {
  }

  /** With frames of at most 65536 bytes, which is all a device opens with, nothing is truncated. */
  lemma {:induction false} NoTruncation(c: Config, d: Desc)
    requires c.l.frameSize <= 0x1_0000 && DescOK(c, d)
    ensures d.addr - FrameStart(d.addr, c.l.frameSize) - c.l.BufStart() < TWO16 && d.len < TWO16
  {
    DescOKMeans(c, d);
  }

  /** The region with `d`'s header prepared for sending from this queue. */
  function Stamp(c: Config, b: bytes, d: Desc): (r: bytes)
    requires |b| == c.regionLen && DescOK(c, d)
    ensures |r| == |b|
  {
    var f := FrameStart(d.addr, c.l.frameSize);
    FrameFits(c, f);
    Mbuf.PreparedTx(b, f + c.l.objHeader, c.poolVA, (d.addr - f - c.l.BufStart()) % 0x10000, d.len)
  }

  // ------------------------------------------------------------- free list

  /** The frame each descriptor is in. */
  function FramesOf(c: Config, ds: seq<Desc>): (fs: seq<nat>)
    ensures |fs| == |ds|
  {
    seq(|ds|, i requires 0 <= i < |ds| => FrameStart(ds[i].addr, c.l.frameSize))
  }

  // -------------------------------------------------------------- transmit

  function FreeSlots(c: Config, v: View): nat {
    if v.closed || c.depth <= v.ledger then 0 else c.depth - v.ledger
  }

  /** How many frames `Alloc(n)` hands out. */
  function AllocCount(c: Config, v: View, n: int): (k: nat)
    ensures k <= |v.free|
  {
    if v.closed || v.dead || n <= 0 then 0
    else Min(Min(n, FreeSlots(c, v)), |v.free|)
  }

  function Alloc(c: Config, v: View, n: int): (View, seq<nat>) {
    var k := AllocCount(c, v, n);
    (v.(free := Kept(v.free, k)), Taken(v.free, k))
  }

  /** The longest prefix whose every descriptor passes the check. */
  function GoodPrefix(c: Config, ds: seq<Desc>): (k: nat)
    ensures k <= |ds|
    ensures forall i :: 0 <= i < k ==> DescOK(c, ds[i])
    ensures k < |ds| ==> !DescOK(c, ds[k])
  {
    if ds == [] || !DescOK(c, ds[0]) then 0 else 1 + GoodPrefix(c, ds[1..])
  }

  /** How many descriptors are offered to the driver in one call. */
  function Offered(c: Config, v: View, ds: seq<Desc>): (k: nat)
    ensures k <= |ds| && k <= FreeSlots(c, v)
    ensures forall i :: 0 <= i < k ==> DescOK(c, ds[i])
  {
    if v.closed || v.dead then 0
    else GoodPrefix(c, ds[..Min(Min(|ds|, FreeSlots(c, v)), c.depth)])
  }

  lemma {:induction false} NoneOffered(c: Config, v: View, ds: seq<Desc>, b: bytes)
    requires |b| == c.regionLen
    ensures ds == [] || FreeSlots(c, v) == 0 ==> Offered(c, v, ds) == 0
    ensures ds[..0] == [] && StampAll(c, b, []) == b && HeaderVAs(c, []) == []
  {
  }

  /** How many are recorded, given the driver's answer. One that lies gets nothing. */
  function Sent(offered: nat, answer: int): (k: nat)
    ensures k <= offered
  {
    if 0 <= answer <= offered then answer else 0
  }

  function StampAll(c: Config, b: bytes, ds: seq<Desc>): (r: bytes)
    requires |b| == c.regionLen
    requires forall i :: 0 <= i < |ds| ==> DescOK(c, ds[i])
    ensures |r| == |b|
    decreases |ds|
  {
    if ds == [] then b else Stamp(c, StampAll(c, b, ds[..|ds| - 1]), ds[|ds| - 1])
  }

  function HeaderVA(c: Config, addr: nat): (va: u64)
    requires addr < c.regionLen
    ensures va == VA(c, FrameStart(addr, c.l.frameSize))
  {
    var f := FrameStart(addr, c.l.frameSize);
    VARoundTrip(c, f);
    VA(c, f)
  }

  /** The driver's own view of the offered batch. */
  function HeaderVAs(c: Config, ds: seq<Desc>): (vas: seq<u64>)
    requires forall i :: 0 <= i < |ds| ==> DescOK(c, ds[i])
    ensures |vas| == |ds|
  {
    seq(|ds|, i requires 0 <= i < |ds| && DescOK(c, ds[i]) => HeaderVA(c, ds[i].addr))
  }

  function Transmit(c: Config, v: View, sent: nat): View {
    v.(ledger := v.ledger + sent)
  }

  /** The driver frees addresses into a ring: what does not fit is dropped. */
  function Enqueued(c: Config, v: View, vas: seq<u64>): View
    requires |v.returned| <= c.cap
  {
    v.(returned := v.returned + vas[..Min(|vas|, c.cap - |v.returned|)])
  }

  /** Whether a reclaim that finds nothing returned pokes the driver first. */
  predicate Asks(v: View, max: int) {
    !v.closed && max > 0 && v.returned == [] && v.ledger > 0
  }

  /** How many addresses one call takes off the returned ring. */
  function DrainCount(v: View, max: int): (k: nat)
    ensures k <= |v.returned|
  {
    if v.closed || max <= 0 then 0 else Min(max, |v.returned|)
  }

  /** The frames among the drained addresses: those from outside the region are skipped. */
  function Drained(c: Config, vas: seq<u64>): (fs: seq<nat>)
    ensures |fs| <= |vas|
    decreases |vas|
  {
    if vas == [] then []
    else
      var rest := Drained(c, vas[..|vas| - 1]);
      var va := vas[|vas| - 1];
      if InRegion(c, va) then rest + [FrameStart(va - c.regionVA, c.l.frameSize)] else rest
  }

  /** Whether any of the addresses is from outside the region. */
  predicate AnyForeign(c: Config, vas: seq<u64>)
    decreases |vas|
  {
    vas != [] && (!InRegion(c, vas[|vas| - 1]) || AnyForeign(c, vas[..|vas| - 1]))
  }

  lemma {:induction false} ForeignIff(c: Config, vas: seq<u64>)
    ensures AnyForeign(c, vas) <==>
              exists i {:trigger vas[i]} :: 0 <= i < |vas| && !(c.regionVA <= vas[i] < c.regionVA + c.regionLen)
    decreases |vas|
  {
    if vas != [] {
      var n := |vas| - 1;
      ForeignIff(c, vas[..n]);
      assert forall i {:trigger vas[i]} :: 0 <= i < n ==> vas[..n][i] == vas[i];
    }
  }

  /** The queue after a drain of `k` addresses, and the frames it yields. */
  function Drain(c: Config, v: View, k: nat): (r: (View, seq<nat>))
    requires k <= |v.returned|
  {
    var fs := Drained(c, v.returned[..k]);
    (v.(returned := v.returned[k..], ledger := v.ledger - |fs|,
        dead := v.dead || AnyForeign(c, v.returned[..k])), fs)
  }

  function Complete(c: Config, v: View, max: int): View
  {
    var (v', fs) := Drain(c, v, DrainCount(v, max));
    v'.(free := PushedAll(c.g, c.checked, v'.free, fs))
  }

  function Reclaim(c: Config, v: View, max: int): (View, seq<nat>)
  {
    Drain(c, v, DrainCount(v, max))
  }

  /** `Free` on a transmit queue and `Recycle` on a receive queue. */
  function GiveBack(c: Config, v: View, ds: seq<Desc>): View
  {
    v.(free := PushedAll(c.g, c.checked, v.free, FramesOf(c, ds)))
  }

  // --------------------------------------------------------------- receive

  function FillCount(v: View, n: int): (k: nat)
    ensures k <= |v.free|
  {
    if v.closed || v.dead || n <= 0 then 0 else Min(n, |v.free|)
  }

  function FrameVAs(c: Config, frames: seq<nat>): (vas: seq<u64>)
    requires forall i :: 0 <= i < |frames| ==> IsFrame(c, frames[i])
    ensures |vas| == |frames|
  {
    seq(|frames|, i requires 0 <= i < |frames| && IsFrame(c, frames[i]) => HeaderVA(c, frames[i]))
  }

  /** The region with the headers of `frames` readied for receiving. */
  function ResetAll(c: Config, b: bytes, frames: seq<nat>): (r: bytes)
    requires |b| == c.regionLen
    requires forall i :: 0 <= i < |frames| ==> IsFrame(c, frames[i])
    ensures |r| == |b|
    decreases |frames|
  {
    if frames == [] then b
    else
      var f := frames[|frames| - 1];
      FrameFits(c, f);
      Mbuf.ResetForRx(ResetAll(c, b, frames[..|frames| - 1]), f + c.l.objHeader, c.l.headroom, c.poolVA)
  }

  /** `Fill`: the supply takes a prefix, and the rest goes straight back. */
  function Fill(c: Config, v: View, n: int): (r: (View, nat))
    requires |v.supply| <= c.cap
    requires forall i :: 0 <= i < |v.free| ==> IsFrame(c, v.free[i])
  {
    var k := FillCount(v, n);
    var taken := Taken(v.free, k);
    var posted := Min(k, c.cap - |v.supply|);
    (v.(free := PushedAll(c.g, c.checked, Kept(v.free, k), taken[posted..]),
        supply := v.supply + FrameVAs(c, taken)[..posted],
        ledger := v.ledger + posted), posted)
  }

  /** What becomes of one delivered address. */
  datatype Outcome = Foreign | Refused(frame: nat) | Delivered(desc: Desc)

  function Classify(c: Config, b: bytes, va: u64): (o: Outcome)
    requires |b| == c.regionLen
  {
    if !InRegion(c, va) then Foreign
    else
      var f := FrameStart(va - c.regionVA, c.l.frameSize);
      FrameFits(c, f);
      var r := Mbuf.RxRead(b, f + c.l.objHeader);
      if r.nbSegs != 1 then Refused(f)
      else
        var d := Desc(f + c.l.BufStart() + r.dataOff, r.dataLen, RxOptions(r.olFlags));
        if DescOK(c, d) then Delivered(d) else Refused(f)
  }

  /** The L4 verdict is only believed together with the L3 one. */
  function RxOptions(olFlags: u64): (o: u32) {
    if !Bit(olFlags, 7) then 0
    else if !Bit(olFlags, 8) then OPT_L3_CHECKSUM_OK
    else OPT_L3_CHECKSUM_OK + OPT_CHECKSUM_OK
  }

  /**
   A delivered descriptor passes the check, but the check is of its own frame.
   It names bytes of the frame the driver handed over exactly when the data
   offset the driver wrote stays inside that frame.
   */
  lemma {:induction false} DeliveredInFrame(c: Config, b: bytes, va: u64)
    requires |b| == c.regionLen && InRegion(c, va)
    ensures var f := FrameOfVA(c, va);
            && f + c.l.objHeader + Mbuf.SIZE <= |b|
            && match Classify(c, b, va)
               case Foreign => false
               case Refused(f') => f' == f
               case Delivered(d) =>
                 DescOK(c, d) && (FrameStart(d.addr, c.l.frameSize) == f <==> InBuffer(c, b, f))
  {
    hide Mbuf.RxRead, RxOptions, RawConfig.Valid, IsPow2;
    SmallRegion(c);
    var m := c.l.frameSize;
    var f := FrameOfVA(c, va);
    FrameFits(c, f);
    match Classify(c, b, va)
    case Delivered(d) =>
      if d.addr < f + m {
        FrameUnique(d.addr, f, m);
      } else {
        assert FrameStart(d.addr, m) > d.addr - m >= f;
      }
    case _ =>
  }

  /** What the driver left in the header at `m`: the packet's place and length, its segments, its checksum verdicts. */
  ghost predicate Left(b: bytes, m: nat, dataOff: nat, len: nat, segs: nat, ipGood: bool, l4Good: bool) {
    && m + 128 <= |b|
    && Mbuf.Word(b, m + 16) == dataOff && Mbuf.Word(b, m + 20) == segs
    && Mbuf.Word(b, m + 40) == len
    && (ipGood <==> b[m + 24] >= 128) && (l4Good <==> b[m + 25] % 2 == 1)
  }

  /**
   A packet the driver left inside the buffer of a frame is delivered, where and as long as it says,
   exactly when it is in one segment and not empty; checked means both headers were, and
   the L3 header alone counts alone.
   */
  lemma {:induction false} GoodDelivered(c: Config, b: bytes, f: nat, dataOff: nat, len: nat, segs: nat, ipGood: bool,
                                         l4Good: bool)
    requires |b| == c.regionLen && IsFrame(c, f) && Left(b, f + c.l.objHeader, dataOff, len, segs, ipGood, l4Good)
    requires c.l.BufStart() + dataOff + len <= c.l.frameSize
    ensures VA(c, f) < TWO64
    ensures var o := Classify(c, b, VA(c, f));
            if segs == 1 && len > 0 then
              && o.Delivered? && o.desc.addr == f + c.l.objHeader + c.l.mbufSize + dataOff && o.desc.len == len
              && o.desc.options == (if !ipGood then 0 else if !l4Good then 4 else 6)
            else o == Refused(f)
  {
    hide RawConfig.Valid, Mbuf.RxRead, Bit, DescOK, IsPow2;
    VARoundTrip(c, f);
    FrameFits(c, f);
    SmallRegion(c);
    Mbuf.FieldsLie(b, f + c.l.objHeader);
    var r := Mbuf.RxRead(b, f + c.l.objHeader);
    var d := Desc(f + c.l.BufStart() + r.dataOff, r.dataLen, RxOptions(r.olFlags));
    DescOKMeans(c, d);
    if len > 0 {
      assert InPacketArea(c, d, f);
    }
  }

  lemma {:induction false} SmallRegion(c: Config)
    ensures c.regionLen <= 0x1_0000_0000_0000 && IsPow2(c.l.frameSize)
  {
  }

  /** Whether the data offset in frame `f`'s header stays inside the frame. */
  predicate InBuffer(c: Config, b: bytes, f: nat)
    requires f + c.l.objHeader + Mbuf.SIZE <= |b|
  {
    c.l.BufStart() + Mbuf.RxRead(b, f + c.l.objHeader).dataOff < c.l.frameSize
  }

  function TakenBy(c: Config, vas: seq<u64>): nat
  {
    |Drained(c, vas)|
  }

  function Descs(c: Config, b: bytes, vas: seq<u64>): (ds: seq<Desc>)
    requires |b| == c.regionLen
    decreases |vas|
  {
    if vas == [] then []
    else
      var rest := Descs(c, b, vas[..|vas| - 1]);
      match Classify(c, b, vas[|vas| - 1])
      case Delivered(d) => rest + [d]
      case _ => rest
  }

  function Refusals(c: Config, b: bytes, vas: seq<u64>): (fs: seq<nat>)
    requires |b| == c.regionLen
    decreases |vas|
  {
    if vas == [] then []
    else
      var rest := Refusals(c, b, vas[..|vas| - 1]);
      match Classify(c, b, vas[|vas| - 1])
      case Refused(f) => rest + [f]
      case _ => rest
  }

  /** `Receive` of the addresses the driver delivered. */
  function Receive(c: Config, b: bytes, v: View, vas: seq<u64>): View
    requires |b| == c.regionLen
  {
    v.(free := PushedAll(c.g, c.checked, v.free, Refusals(c, b, vas)),
       ledger := v.ledger - TakenBy(c, vas),
       dead := v.dead || AnyForeign(c, vas))
  }

  function DrainReturned(c: Config, v: View): View
  {
    var (v', fs) := Drain(c, v, |v.returned|);
    v'.(free := PushedAll(c.g, c.checked, v'.free, fs))
  }
}
