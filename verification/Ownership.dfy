/**
 Who holds each frame, over every run of any number of DPDK queues and an honest
 driver. A state is the queues as their owner sees them, what the driver holds
 of each, what the application holds, and the bytes of the region, which carry
 the stamp saying where the driver must free each frame. The steps of a queue
 are the functions of `QueueSpec`.
 */
module Ownership {
  import opened Words
  import opened Bytes
  import opened Pool
  import opened QueueSpec
  import Mbuf

  // ------------------------------------------------------------ one device

  /** The queues of a device: their configurations, and which of them receive. */
  datatype Device = Device(cs: seq<Config>, rx: seq<bool>) {
    ghost predicate Valid() {
      && |cs| == |rx| && |cs| > 0
      && (forall i :: 0 <= i < |cs| ==> cs[i].g.count <= cs[i].cap)
      && (forall i :: 0 <= i < |cs| ==> SameRegion(cs[0], cs[i]))
      && (forall i, j :: 0 <= i < j < |cs| ==> cs[i].poolVA != cs[j].poolVA)
    }
  }

  predicate SameRegion(c: Config, d: Config) {
    c.l == d.l && c.regionLen == d.regionLen && c.regionVA == d.regionVA
  }

  datatype Sys = Sys(region: bytes, qs: seq<View>, held: seq<multiset<nat>>, app: multiset<nat>)

  /** The frames one queue accounts for: its list, its rings and what the driver holds of it. */
  ghost function Place(c: Config, v: View, h: multiset<nat>): multiset<nat>
  {
    multiset(v.free) + multiset(Drained(c, v.supply)) + multiset(Drained(c, v.returned)) + h
  }

  ghost function Sum(ps: seq<multiset<nat>>): multiset<nat> {
    if ps == [] then multiset{} else Sum(ps[..|ps| - 1]) + ps[|ps| - 1]
  }

  ghost function Places(dev: Device, s: Sys): (ps: seq<multiset<nat>>)
    requires Shaped(dev, s)
    ensures |ps| == |dev.cs|
  {
    seq(|dev.cs|, i requires 0 <= i < |dev.cs| => Place(dev.cs[i], s.qs[i], s.held[i]))
  }

  ghost predicate Shaped(dev: Device, s: Sys) {
    dev.Valid() && |s.qs| == |s.held| == |dev.cs| && |s.region| == dev.cs[0].regionLen
  }

  /** Every frame somebody holds, as often as it is held. */
  ghost function Total(dev: Device, s: Sys): multiset<nat>
    requires Shaped(dev, s)
  {
    Sum(Places(dev, s)) + s.app
  }

  /** Each frame of the region is held exactly once, and nothing else is held. */
  ghost predicate ExactlyOnce(dev: Device, s: Sys)
    requires Shaped(dev, s)
  {
    forall f: nat :: Total(dev, s)[f] == if IsFrame(dev.cs[0], f) then 1 else 0
  }

  /** The pool the driver will free frame `f` into, as its header says. */
  ghost function PoolAt(c: Config, b: bytes, f: nat): nat
    requires |b| == c.regionLen && IsFrame(c, f)
  {
    FrameFits(c, f);
    Mbuf.PoolOf(b, f + c.l.objHeader)
  }

  ghost predicate AllIn(c: Config, vas: seq<u64>) {
    forall k :: 0 <= k < |vas| ==> InRegion(c, vas[k])
  }

  /**
   Queues that may only carry their own frames: receive queues, and transmit
   queues whose returned ring is smaller than their depth.
   */
  predicate Confined(c: Config, rx: bool) { rx || c.depth > c.cap }

  ghost predicate Stamped(c: Config, b: bytes, fs: multiset<nat>)
    requires |b| == c.regionLen
  {
    forall f :: f in fs ==> IsFrame(c, f) && PoolAt(c, b, f) == c.poolVA
  }

  ghost predicate AllOwn(g: Geometry, fs: multiset<nat>)
    requires g.frameSize > 0
  {
    forall f :: f in fs ==> g.Holds(f)
  }

  /** What the driver and the rings have of a queue. */
  ghost function Lent(c: Config, v: View, h: multiset<nat>): multiset<nat>
  {
    multiset(Drained(c, v.supply)) + multiset(Drained(c, v.returned)) + h
  }

  /** The exact ledger: everything lent out is counted, and never more than the depth. */
  ghost predicate LedgerExact(c: Config, rx: bool, v: View, h: multiset<nat>) {
    && v.ledger == |v.supply| + |v.returned| + |h|
    && (!rx ==> v.supply == [] && v.ledger <= c.depth)
    && |v.supply| <= c.cap && |v.returned| <= c.cap
  }

  ghost predicate QInv(c: Config, rx: bool, b: bytes, v: View, h: multiset<nat>)
    requires |b| == c.regionLen
  {
    && ListOK(c.g, v.free) && !v.dead
    && AllIn(c, v.supply) && AllIn(c, v.returned)
    && LedgerExact(c, rx, v, h)
    && Stamped(c, b, multiset(Drained(c, v.supply)) + h)
    && (Confined(c, rx) ==> AllOwn(c.g, Lent(c, v, h)))
  }

  ghost predicate Inv(dev: Device, s: Sys) {
    && Shaped(dev, s)
    && (forall i :: 0 <= i < |dev.cs| ==> QInv(dev.cs[i], dev.rx[i], s.region, s.qs[i], s.held[i]))
    && ExactlyOnce(dev, s)
  }

  // ---------------------------------------------------------------- actions

  datatype Action =
    | AllocFrames(i: nat, n: int)
    | Send(i: nat, ds: seq<Desc>, answer: int)
    | CompleteSent(i: nat, max: int)
    | ReclaimSent(i: nat, max: int)
    | ReturnFrames(i: nat, ds: seq<Desc>)
    | FillSupply(i: nat, n: int)
    | Deliver(i: nat, frames: seq<nat>)
    | DrainFreed(i: nat)
    | DriverGet(i: nat, bulk: nat)
    | DriverFree(i: nat, f: nat)
    | WriteBytes(i: nat, region: bytes)
    | Close(i: nat)

  /** The queue whose pool a stamp names, or the number of queues if none does. */
  function Named(cs: seq<Config>, pool: nat): (j: nat)
    ensures j <= |cs| && (j < |cs| ==> cs[j].poolVA == pool)
    ensures j == |cs| ==> forall k :: 0 <= k < |cs| ==> cs[k].poolVA != pool
  {
    if cs == [] then 0 else if cs[0].poolVA == pool then 0 else 1 + Named(cs[1..], pool)
  }

  /**
   What the application and an honest driver do. The application gives away
   only frames it holds, and puts frames on the list they came from; `Complete`
   is for frames of the queue's own. The driver hands over and frees only what
   it holds, and leaves the stamp and the frame boundaries alone. Offered a batch it
   holds as many of it as it answers, from the front; one whose answer cannot be holds none.
   */
  ghost predicate Enabled(dev: Device, s: Sys, a: Action)
    requires Shaped(dev, s)
  {
    a.i < |dev.cs| &&
    var c, v, h, rx := dev.cs[a.i], s.qs[a.i], s.held[a.i], dev.rx[a.i];
    match a
    case AllocFrames(_, _) => !rx
    case Send(_, ds, _) =>
      !rx && multiset(FramesOf(c, ds)) <= s.app && (Confined(c, rx) ==> AllOwn(c.g, multiset(FramesOf(c, ds))))
    case CompleteSent(_, max) => !rx && AllOwn(c.g, multiset(Reclaim(c, v, max).1))
    case ReclaimSent(_, _) => !rx
    case ReturnFrames(_, ds) => multiset(FramesOf(c, ds)) <= s.app && AllOwn(c.g, multiset(FramesOf(c, ds)))
    case FillSupply(_, _) => rx && Defined(c, v)
    case Deliver(_, frames) =>
      rx && !v.closed && multiset(frames) <= h &&
      (forall k :: 0 <= k < |frames| ==> IsFrame(c, frames[k])) &&
      (forall k :: 0 <= k < |frames| ==> (FrameFits(c, frames[k]); InBuffer(c, s.region, frames[k])))
    case DrainFreed(_) => rx
    case DriverGet(_, _) => rx
    case DriverFree(_, f) => f in h && IsFrame(c, f) && forall j :: 0 <= j < |dev.cs| ==> Defined(dev.cs[j], s.qs[j])
    case WriteBytes(_, region) =>
      |region| == |s.region| && (forall f: nat :: IsFrame(c, f) ==> PoolAt(c, region, f) == PoolAt(c, s.region, f))
    case Close(_) => true
  }

  /** What it takes for a queue's steps to make sense at all; every reachable state has it. */
  ghost predicate Defined(c: Config, v: View) {
    && |v.supply| <= c.cap && |v.returned| <= c.cap
    && forall k :: 0 <= k < |v.free| ==> IsFrame(c, v.free[k])
  }

  function Put<T>(s: seq<T>, i: nat, x: T): (r: seq<T>)
    requires i < |s|
    ensures |r| == |s| && r[i] == x && forall k :: 0 <= k < |s| && k != i ==> r[k] == s[k]
  {
    s[i := x]
  }

  ghost function Step(s: Sys, i: nat, b: bytes, v: View, h: multiset<nat>, app: multiset<nat>): Sys
    requires i < |s.qs| && i < |s.held|
  {
    Sys(b, Put(s.qs, i, v), Put(s.held, i, h), app)
  }

  ghost function Next(dev: Device, s: Sys, a: Action): Sys
    requires Shaped(dev, s) && Enabled(dev, s, a)
  {
    var c, v, h, b := dev.cs[a.i], s.qs[a.i], s.held[a.i], s.region;
    match a
    case AllocFrames(i, n) =>
      var (v', fs) := Alloc(c, v, n);
      Step(s, i, b, v', h, s.app + multiset(fs))
    case Send(i, ds, answer) =>
      var k := Offered(c, v, ds);
      var booked, took := Sent(k, answer), if 0 <= answer <= k then answer else 0;
      Step(s, i, StampAll(c, b, ds[..k]), Transmit(c, v, booked), h + multiset(FramesOf(c, ds[..took])),
           s.app - multiset(FramesOf(c, ds[..booked])))
    case CompleteSent(i, max) => Step(s, i, b, Complete(c, v, max), h, s.app)
    case ReclaimSent(i, max) =>
      var (v', fs) := Reclaim(c, v, max);
      Step(s, i, b, v', h, s.app + multiset(fs))
    case ReturnFrames(i, ds) => Step(s, i, b, GiveBack(c, v, ds), h, s.app - multiset(FramesOf(c, ds)))
    case FillSupply(i, n) =>
      Step(s, i, ResetAll(c, b, Taken(v.free, FillCount(v, n))), Fill(c, v, n).0, h, s.app)
    case Deliver(i, frames) =>
      var vas := FrameVAs(c, frames);
      Step(s, i, b, Receive(c, b, v, vas), h - multiset(frames), s.app + multiset(FramesOf(c, Descs(c, b, vas))))
    case DrainFreed(i) => Step(s, i, b, DrainReturned(c, v), h, s.app)
    case DriverGet(i, n) =>
      if n > |v.supply| then s
      else Step(s, i, b, v.(supply := v.supply[n..]), h + multiset(Drained(c, v.supply[..n])), s.app)
    case DriverFree(i, f) =>
      var j := Named(dev.cs, PoolAt(c, b, f));
      var s' := Step(s, i, b, v, h - multiset{f}, s.app);
      if j == |dev.cs| then s'
      else Step(s', j, b, Enqueued(dev.cs[j], s.qs[j], [HeaderVA(dev.cs[j], f)]), s'.held[j], s.app)
    case WriteBytes(_, region) => s.(region := region)
    case Close(i) => Step(s, i, b, v.(closed := true), h, s.app)
  }

  // ------------------------------------------------------------------ runs

  /** The slices of a device, end to end, are the region. */
  ghost predicate Partitioned(dev: Device) {
    && dev.Valid()
    && dev.cs[0].g.first == 0
    && (forall i :: 0 < i < |dev.cs| ==> dev.cs[i].g.first == dev.cs[i - 1].g.first + dev.cs[i - 1].g.count)
    && dev.cs[|dev.cs| - 1].g.End() == dev.cs[0].regionLen
  }

  /** As `Open` leaves it: every frame on the list of the queue it was dealt to. */
  ghost predicate Initial(dev: Device, s: Sys) {
    && Partitioned(dev) && Shaped(dev, s) && s.app == multiset{}
    && forall i :: 0 <= i < |dev.cs| ==>
         s.qs[i] == View(Full(dev.cs[i].g), [], [], 0, false, false) && s.held[i] == multiset{}
  }

  /** A run: any enabled actions, in any order. */
  ghost predicate IsRun(dev: Device, states: seq<Sys>, actions: seq<Action>) {
    && |states| == |actions| + 1 && Initial(dev, states[0])
    && forall k :: 0 <= k < |actions| ==>
         Shaped(dev, states[k]) && Enabled(dev, states[k], actions[k])
            && states[k + 1] == Next(dev, states[k], actions[k])
  }
}
