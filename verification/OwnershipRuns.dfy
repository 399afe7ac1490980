/**
 The theorems about every run of a DPDK device: each frame is in exactly one
 place, the ledgers are exact, and the driver never finds a returned ring full.
 */
module OwnershipRuns {
  import opened Words
  import opened Bytes
  import opened Pool
  import opened QueueSpec
  import opened Ownership
  import opened OwnershipProofs

  lemma {:induction false} Applied(dev: Device, s: Sys, i: nat, b: bytes, v: View, h: multiset<nat>, app: multiset<nat>)
    requires Inv(dev, s) && i < |dev.cs| && |s.region| == dev.cs[i].regionLen
    requires After(dev.cs[i], dev.rx[i], s.region, s.qs[i], s.held[i], s.app, b, v, h, app)
    ensures Inv(dev, Step(s, i, b, v, h, app))
  {
    assert SameRegion(dev.cs[0], dev.cs[i]);
    assert Places(dev, s)[i] == Place(dev.cs[i], s.qs[i], s.held[i]);
    Lift(dev, s, i, b, v, h, app);
  }

  lemma {:induction false} QueueReady(dev: Device, s: Sys, i: nat)
    requires Inv(dev, s) && i < |dev.cs|
    ensures |s.region| == dev.cs[i].regionLen && Before(dev.cs[i], dev.rx[i], s.region, s.qs[i], s.held[i])
    ensures AtMostOnce(Place(dev.cs[i], s.qs[i], s.held[i]) + s.app)
    ensures Defined(dev.cs[i], s.qs[i])
  {
    var c, v := dev.cs[i], s.qs[i];
    assert SameRegion(dev.cs[0], c);
    OneQueueOnce(dev, s, i);
    assert QInv(c, dev.rx[i], s.region, v, s.held[i]);
    forall k | 0 <= k < |v.free|
      ensures IsFrame(c, v.free[k])
    {
      assert c.g.Holds(v.free[k]);
    }
  }

  lemma {:induction false} KeepsAlloc(dev: Device, s: Sys, i: nat, n: int)
    requires Inv(dev, s) && Enabled(dev, s, AllocFrames(i, n))
    ensures Inv(dev, Next(dev, s, AllocFrames(i, n)))
  {
    QueueReady(dev, s, i);
    AllocStep(dev.cs[i], s.region, s.qs[i], s.held[i], s.app, n);
    var (v, fs) := Alloc(dev.cs[i], s.qs[i], n);
    Applied(dev, s, i, s.region, v, s.held[i], s.app + multiset(fs));
  }

  /** One queue's part of a send: what the driver says it took is the driver's, and was the application's. */
  lemma {:induction false} SendAfter(c: Config, b: bytes, v: View, h: multiset<nat>, app: multiset<nat>,
                                     ds: seq<Desc>, k: nat, n: nat)
    requires Before(c, false, b, v, h) && multiset(FramesOf(c, ds)) <= app
    requires Confined(c, false) ==> AllOwn(c.g, multiset(FramesOf(c, ds)))
    requires n <= k == Offered(c, v, ds)
    ensures var fs := multiset(FramesOf(c, ds[..n]));
            After(c, false, b, v, h, app, StampAll(c, b, ds[..k]), Transmit(c, v, n), h + fs, app - fs)
  {
    hide After, StampAll, GoodPrefix, RawConfig.Valid, IsPow2, ListOK, AllIn, AllOwn, StampsKept;
    var all := FramesOf(c, ds);
    assert Stamped(c, b, h) by {
      assert multiset(Drained(c, v.supply)) + h == h by { assert Drained(c, v.supply) == []; }
    }
    SendStamps(c, b, v, h, app, ds, k, n);
    assert FramesOf(c, ds[..n]) == all[..n];
    SendStep(c, b, StampAll(c, b, ds[..k]), v, h, app, all, n);
  }

  lemma {:induction false} KeepsSend(dev: Device, s: Sys, i: nat, ds: seq<Desc>, answer: int)
    requires Inv(dev, s) && Enabled(dev, s, Send(i, ds, answer))
    ensures Inv(dev, Next(dev, s, Send(i, ds, answer)))
  {
    hide ExactlyOnce, After, StampAll, GoodPrefix, RawConfig.Valid, IsPow2, AllOwn, QInv, Place;
    QueueReady(dev, s, i);
    var c, b, v, h := dev.cs[i], s.region, s.qs[i], s.held[i];
    var k := Offered(c, v, ds);
    var n := Sent(k, answer);
    assert n == if 0 <= answer <= k then answer else 0;
    var fs := multiset(FramesOf(c, ds[..n]));
    SendAfter(c, b, v, h, s.app, ds, k, n);
    Applied(dev, s, i, StampAll(c, b, ds[..k]), Transmit(c, v, n), h + fs, s.app - fs);
  }

  lemma {:induction false} KeepsReclaim(dev: Device, s: Sys, i: nat, max: int)
    requires Inv(dev, s) && Enabled(dev, s, ReclaimSent(i, max))
    ensures Inv(dev, Next(dev, s, ReclaimSent(i, max)))
  {
    QueueReady(dev, s, i);
    var c, b, v, h := dev.cs[i], s.region, s.qs[i], s.held[i];
    DrainStep(c, false, b, v, h, s.app, DrainCount(v, max));
    var (v', fs) := Reclaim(c, v, max);
    Applied(dev, s, i, b, v', h, s.app + multiset(fs));
  }

  lemma {:induction false} DrainedOnce(c: Config, v: View, h: multiset<nat>, app: multiset<nat>, k: nat)
    requires AtMostOnce(Place(c, v, h) + app) && k <= |v.returned|
    ensures AtMostOnce(multiset(v.free) + multiset(Drain(c, v, k).1))
  {
    DrainedCut(c, v.returned, k);
    SmallerAtMostOnce(multiset(v.free) + multiset(Drain(c, v, k).1), Place(c, v, h) + app);
  }

  lemma {:induction false} KeepsComplete(dev: Device, s: Sys, i: nat, max: int)
    requires Inv(dev, s) && Enabled(dev, s, CompleteSent(i, max))
    ensures Inv(dev, Next(dev, s, CompleteSent(i, max)))
  {
    QueueReady(dev, s, i);
    var c, b, v, h := dev.cs[i], s.region, s.qs[i], s.held[i];
    var k := DrainCount(v, max);
    DrainedOnce(c, v, h, s.app, k);
    DrainAndPush(c, false, b, v, h, s.app, k);
    Applied(dev, s, i, b, Complete(c, v, max), h, s.app);
  }

  lemma {:induction false} KeepsDrainReturned(dev: Device, s: Sys, i: nat)
    requires Inv(dev, s) && Enabled(dev, s, DrainFreed(i))
    ensures Inv(dev, Next(dev, s, DrainFreed(i)))
  {
    QueueReady(dev, s, i);
    var c, b, v, h := dev.cs[i], s.region, s.qs[i], s.held[i];
    DrainedOnce(c, v, h, s.app, |v.returned|);
    DrainStep(c, true, b, v, h, s.app, |v.returned|);
    DrainAndPush(c, true, b, v, h, s.app, |v.returned|);
    Applied(dev, s, i, b, DrainReturned(c, v), h, s.app);
  }

  lemma {:induction false} KeepsReturn(dev: Device, s: Sys, i: nat, ds: seq<Desc>)
    requires Inv(dev, s) && Enabled(dev, s, ReturnFrames(i, ds))
    ensures Inv(dev, Next(dev, s, ReturnFrames(i, ds)))
  {
    QueueReady(dev, s, i);
    var c, b, v, h := dev.cs[i], s.region, s.qs[i], s.held[i];
    var fs := FramesOf(c, ds);
    SmallerAtMostOnce(multiset(v.free) + multiset(fs), Place(c, v, h) + s.app);
    PushStep(c, dev.rx[i], b, v, h, s.app, fs);
    Applied(dev, s, i, b, GiveBack(c, v, ds), h, s.app - multiset(fs));
  }

  lemma {:induction false} KeepsFill(dev: Device, s: Sys, i: nat, n: int)
    requires Inv(dev, s) && Enabled(dev, s, FillSupply(i, n))
    ensures Inv(dev, Next(dev, s, FillSupply(i, n)))
  {
    hide ExactlyOnce, After, Before, Fill, ResetAll;
    QueueReady(dev, s, i);
    var c, b, v, h := dev.cs[i], s.region, s.qs[i], s.held[i];
    SmallerAtMostOnce(multiset(v.free), Place(c, v, h) + s.app);
    FillStep(c, b, v, h, s.app, n);
    Applied(dev, s, i, ResetAll(c, b, Taken(v.free, FillCount(v, n))), Fill(c, v, n).0, h, s.app);
  }

  lemma {:induction false} KeepsDeliver(dev: Device, s: Sys, i: nat, frames: seq<nat>)
    requires Inv(dev, s) && Enabled(dev, s, Deliver(i, frames))
    ensures Inv(dev, Next(dev, s, Deliver(i, frames)))
  {
    hide ExactlyOnce, After, Receive, Descs, FrameVAs;
    QueueReady(dev, s, i);
    var c, b, v, h := dev.cs[i], s.region, s.qs[i], s.held[i];
    BurstStep(c, b, v, h, s.app, frames);
    var vas := FrameVAs(c, frames);
    Applied(dev, s, i, b, Receive(c, b, v, vas), h - multiset(frames), s.app + multiset(FramesOf(c, Descs(c, b, vas))));
  }

  /** What one burst of whole frames does to a queue. */
  lemma {:induction false} BurstStep(c: Config, b: bytes, v: View, h: multiset<nat>, app: multiset<nat>,
                                     frames: seq<nat>)
    requires Before(c, true, b, v, h) && multiset(frames) <= h && AtMostOnce(Place(c, v, h) + app)
    requires forall k :: 0 <= k < |frames| ==> IsFrame(c, frames[k])
    requires forall k :: 0 <= k < |frames| ==> (FrameFits(c, frames[k]); InBuffer(c, b, frames[k]))
    ensures var vas := FrameVAs(c, frames);
            After(c, true, b, v, h, app, b, Receive(c, b, v, vas), h - multiset(frames),
               app + multiset(FramesOf(c, Descs(c, b, vas))))
  {
    hide After, Descs, Refusals, FramesOf, FrameVAs, InBuffer, PushedAll;
    var vas := FrameVAs(c, frames);
    BurstOfFrames(c, b, frames);
    var refused, out := Refusals(c, b, vas), multiset(FramesOf(c, Descs(c, b, vas)));
    SmallerAtMostOnce(multiset(v.free) + multiset(frames), Place(c, v, h) + app);
    DeliverStep(c, b, v, h, app, multiset(frames), refused, out);
    assert |multiset(frames)| == |frames|;
  }

  lemma {:induction false} KeepsGet(dev: Device, s: Sys, i: nat, n: nat)
    requires Inv(dev, s) && Enabled(dev, s, DriverGet(i, n))
    ensures Inv(dev, Next(dev, s, DriverGet(i, n)))
  {
    QueueReady(dev, s, i);
    var c, b, v, h := dev.cs[i], s.region, s.qs[i], s.held[i];
    if n <= |v.supply| {
      GetStep(c, b, v, h, s.app, n);
      Applied(dev, s, i, b, v.(supply := v.supply[n..]), h + multiset(Drained(c, v.supply[..n])), s.app);
    }
  }

  /** A frame the driver holds of a queue is freed into that queue's own ring, and fits. */
  lemma {:induction false} FreedAtHome(dev: Device, s: Sys, i: nat, f: nat)
    requires Inv(dev, s) && i < |dev.cs| && f in s.held[i]
    ensures |s.region| == dev.cs[i].regionLen && IsFrame(dev.cs[i], f)
    ensures Named(dev.cs, PoolAt(dev.cs[i], s.region, f)) == i
    ensures |s.qs[i].returned| < dev.cs[i].cap
  {
    QueueReady(dev, s, i);
    var c, v, h := dev.cs[i], s.qs[i], s.held[i];
    assert f in multiset(Drained(c, v.supply)) + h;
    SmallerAtMostOnce(Lent(c, v, h), Place(c, v, h) + s.app);
    RoomToFree(c, dev.rx[i], s.region, v, h, f);
  }

  lemma {:induction false} FreeIsStep(dev: Device, s: Sys, i: nat, f: nat)
    requires Shaped(dev, s) && Enabled(dev, s, DriverFree(i, f)) && |s.region| == dev.cs[i].regionLen
    requires Named(dev.cs, PoolAt(dev.cs[i], s.region, f)) == i
    ensures Next(dev, s, DriverFree(i, f)) ==
            Step(s, i, s.region, Enqueued(dev.cs[i], s.qs[i], [HeaderVA(dev.cs[i], f)]), s.held[i] - multiset{f}, s.app)
  {
    var v, h := Enqueued(dev.cs[i], s.qs[i], [HeaderVA(dev.cs[i], f)]), s.held[i] - multiset{f};
    assert Put(Put(s.qs, i, s.qs[i]), i, v) == Put(s.qs, i, v);
    assert Put(Put(s.held, i, h), i, h) == Put(s.held, i, h);
  }

  lemma {:induction false} KeepsFree(dev: Device, s: Sys, i: nat, f: nat)
    requires Inv(dev, s) && Enabled(dev, s, DriverFree(i, f))
    ensures Inv(dev, Next(dev, s, DriverFree(i, f)))
  {
    QueueReady(dev, s, i);
    FreedAtHome(dev, s, i, f);
    FreeStep(dev.cs[i], dev.rx[i], s.region, s.qs[i], s.held[i], s.app, f);
    Applied(dev, s, i, s.region, Enqueued(dev.cs[i], s.qs[i], [HeaderVA(dev.cs[i], f)]), s.held[i] - multiset{f},
       s.app);
    FreeIsStep(dev, s, i, f);
  }

  lemma {:induction false} KeepsWrite(dev: Device, s: Sys, i: nat, region: bytes)
    requires Inv(dev, s) && Enabled(dev, s, WriteBytes(i, region))
    ensures Inv(dev, Next(dev, s, WriteBytes(i, region)))
  {
    var s' := s.(region := region);
    assert SameRegion(dev.cs[0], dev.cs[i]);
    assert Places(dev, s') == Places(dev, s);
    forall k | 0 <= k < |dev.cs|
      ensures QInv(dev.cs[k], dev.rx[k], region, s.qs[k], s.held[k])
    {
      var c := dev.cs[k];
      assert SameRegion(dev.cs[0], c);
      StampedElsewhere(dev.cs[i], c, s.region, region, multiset{},
                       multiset(Drained(c, s.qs[k].supply)) + s.held[k]);
    }
  }

  lemma {:induction false} KeepsClose(dev: Device, s: Sys, i: nat)
    requires Inv(dev, s) && Enabled(dev, s, Close(i))
    ensures Inv(dev, Next(dev, s, Close(i)))
  {
    QueueReady(dev, s, i);
    var c, v, h := dev.cs[i], s.qs[i], s.held[i];
    var v' := v.(closed := true);
    assert Place(c, v', h) == Place(c, v, h) && Lent(c, v', h) == Lent(c, v, h);
    SameBytes(c, s.region, Place(c, v, h) + s.app);
    Applied(dev, s, i, s.region, v', h, s.app);
  }

  /** Every action of the application and of an honest driver keeps the invariant. */
  lemma {:induction false} StepKeeps(dev: Device, s: Sys, a: Action)
    requires Inv(dev, s) && Enabled(dev, s, a)
    ensures Inv(dev, Next(dev, s, a))
  {
    match a
    case AllocFrames(i, n) => KeepsAlloc(dev, s, i, n);
    case Send(i, ds, answer) => KeepsSend(dev, s, i, ds, answer);
    case CompleteSent(i, max) => KeepsComplete(dev, s, i, max);
    case ReclaimSent(i, max) => KeepsReclaim(dev, s, i, max);
    case ReturnFrames(i, ds) => KeepsReturn(dev, s, i, ds);
    case FillSupply(i, n) => KeepsFill(dev, s, i, n);
    case Deliver(i, frames) => KeepsDeliver(dev, s, i, frames);
    case DrainFreed(i) => KeepsDrainReturned(dev, s, i);
    case DriverGet(i, n) => KeepsGet(dev, s, i, n);
    case DriverFree(i, f) => KeepsFree(dev, s, i, f);
    case WriteBytes(i, region) => KeepsWrite(dev, s, i, region);
    case Close(i) => KeepsClose(dev, s, i);
  }

  // --------------------------------------------------------- the start state

  lemma {:induction false} SliceEnd(g: Geometry, h: Geometry)
    requires h.first == g.first + g.count && h.frameSize == g.frameSize
    ensures g.End() == h.Base()
  {
  }

  /** The slices dealt so far hold exactly the frames below where they end. */
  lemma {:induction false} DealtSum(dev: Device, s: Sys, n: nat, f: nat)
    requires Initial(dev, s) && 0 < n <= |dev.cs|
    ensures Sum(Places(dev, s)[..n])[f] ==
            if f % dev.cs[0].l.frameSize == 0 && f < dev.cs[n - 1].g.End() then 1 else 0
  {
    var ps := Places(dev, s);
    var c := dev.cs[n - 1];
    assert SameRegion(dev.cs[0], c);
    FullPlace(c, s.qs[n - 1], s.held[n - 1], f);
    assert ps[..n][..n - 1] == ps[..n - 1];
    if n == 1 {
      assert ps[..0] == [];
    } else {
      DealtSum(dev, s, n - 1, f);
      assert SameRegion(dev.cs[0], dev.cs[n - 2]);
      SliceEnd(dev.cs[n - 2].g, c.g);
      SliceOrder(c.g);
    }
  }

  lemma {:induction false} SliceOrder(g: Geometry)
    ensures g.Base() <= g.End()
  {
  }

  lemma {:induction false} FullPlace(c: Config, v: View, h: multiset<nat>, f: nat)
    requires v.free == Full(c.g) && v.supply == [] && v.returned == [] && h == multiset{}
    ensures Place(c, v, h)[f] == if c.g.Holds(f) then 1 else 0
  {
    FullOK(c.g);
    NoDupCount(v.free, f);
    assert Drained(c, v.supply) == [] && Drained(c, v.returned) == [];
  }

  /** The deal at `Open` puts every frame of the region in one place. */
  lemma {:induction false} InitialInv(dev: Device, s: Sys)
    requires Initial(dev, s)
    ensures Inv(dev, s)
  {
    forall f: nat
      ensures Total(dev, s)[f] == if IsFrame(dev.cs[0], f) then 1 else 0
    {
      DealtSum(dev, s, |dev.cs|, f);
      assert Places(dev, s)[..|dev.cs|] == Places(dev, s);
    }
    forall i | 0 <= i < |dev.cs|
      ensures |s.region| == dev.cs[i].regionLen && QInv(dev.cs[i], dev.rx[i], s.region, s.qs[i], s.held[i])
    {
      assert SameRegion(dev.cs[0], dev.cs[i]);
      FullOK(dev.cs[i].g);
      assert Drained(dev.cs[i], []) == [];
    }
  }

  // --------------------------------------------------------------- every run

  /** Every state of every run satisfies the invariant. */
  lemma {:induction false} EveryRun(dev: Device, states: seq<Sys>, actions: seq<Action>, k: nat)
    requires IsRun(dev, states, actions) && k < |states|
    ensures Inv(dev, states[k])
  {
    if k == 0 {
      InitialInv(dev, states[0]);
    } else {
      EveryRun(dev, states, actions, k - 1);
      StepKeeps(dev, states[k - 1], actions[k - 1]);
    }
  }

  /** How many of the five places of queue `i`, and the application, have frame `f`. */
  ghost function PlacesWith(c: Config, v: View, h: multiset<nat>, app: multiset<nat>, f: nat): nat {
    (if f in v.free then 1 else 0) + (if f in Drained(c, v.supply) then 1 else 0)
    + (if f in Drained(c, v.returned) then 1 else 0) + (if f in h then 1 else 0) + (if f in app then 1 else 0)
  }

  /**
   In every reachable state a frame is in at most one place of one queue or with
   the application, and every frame of the region is somewhere.
   */
  lemma {:induction false} OneHolder(dev: Device, states: seq<Sys>, actions: seq<Action>, k: nat, f: nat)
    requires IsRun(dev, states, actions) && k < |states|
    ensures Inv(dev, states[k])
    ensures var s := states[k];
            && (forall i :: 0 <= i < |dev.cs| ==> PlacesWith(dev.cs[i], s.qs[i], s.held[i], s.app, f) <= 1)
            && (forall i, j :: 0 <= i < |dev.cs| && 0 <= j < |dev.cs| && i != j ==>
                  !(f in Places(dev, s)[i] && f in Places(dev, s)[j]))
            && (IsFrame(dev.cs[0], f) <==> f in s.app || exists i :: 0 <= i < |dev.cs| && f in Places(dev, s)[i])
  {
    EveryRun(dev, states, actions, k);
    var s := states[k];
    forall i | 0 <= i < |dev.cs|
      ensures PlacesWith(dev.cs[i], s.qs[i], s.held[i], s.app, f) <= 1
    {
      OneQueueOnce(dev, s, i);
      CountPlaces(dev.cs[i], s.qs[i], s.held[i], s.app, f);
    }
    forall i, j | 0 <= i < |dev.cs| && 0 <= j < |dev.cs| && i != j
      ensures !(f in Places(dev, s)[i] && f in Places(dev, s)[j])
    {
      Disjoint(dev, s, i, j);
    }
    SumMember(Places(dev, s), f);
    assert Total(dev, s)[f] == if IsFrame(dev.cs[0], f) then 1 else 0;
  }

  lemma {:induction false} CountPlaces(c: Config, v: View, h: multiset<nat>, app: multiset<nat>, f: nat)
    ensures PlacesWith(c, v, h, app, f) <= (Place(c, v, h) + app)[f]
  {
    assert f in v.free ==> multiset(v.free)[f] >= 1;
    assert f in Drained(c, v.supply) ==> multiset(Drained(c, v.supply))[f] >= 1;
    assert f in Drained(c, v.returned) ==> multiset(Drained(c, v.returned))[f] >= 1;
  }

  lemma {:induction false} SumMember(ps: seq<multiset<nat>>, f: nat)
    ensures f in Sum(ps) <==> exists i :: 0 <= i < |ps| && f in ps[i]
  {
    if ps != [] {
      var n := |ps| - 1;
      SumMember(ps[..n], f);
      assert f in Sum(ps) <==> f in Sum(ps[..n]) || f in ps[n];
    }
  }

  /**
   The ledgers over every run: what a queue counts as lent is what its rings and
   the driver have, a transmit queue never lends more than its depth, and the
   driver's next free always finds its ring, its own queue's, with room.
   */
  lemma {:induction false} LedgersExact(dev: Device, states: seq<Sys>, actions: seq<Action>, k: nat, i: nat)
    requires IsRun(dev, states, actions) && k < |states| && i < |dev.cs|
    ensures Inv(dev, states[k])
    ensures var c, v, h := dev.cs[i], states[k].qs[i], states[k].held[i];
            && v.ledger == |v.supply| + |v.returned| + |h|
            && (!dev.rx[i] ==> v.ledger == |v.returned| + |h| <= c.depth)
            && (forall f :: f in h ==>
                  |states[k].region| == c.regionLen && IsFrame(c, f) &&
                  Named(dev.cs, PoolAt(c, states[k].region, f)) == i && |v.returned| < c.cap)
  {
    EveryRun(dev, states, actions, k);
    var s := states[k];
    assert QInv(dev.cs[i], dev.rx[i], s.region, s.qs[i], s.held[i]);
    forall f | f in s.held[i]
      ensures |s.region| == dev.cs[i].regionLen && IsFrame(dev.cs[i], f)
      ensures Named(dev.cs, PoolAt(dev.cs[i], s.region, f)) == i && |s.qs[i].returned| < dev.cs[i].cap
    {
      FreedAtHome(dev, s, i, f);
    }
  }

  // -------------------------------------- Complete and frames from elsewhere

  lemma {:induction false} OwnAndForeign(g: Geometry, fs: seq<nat>, f: nat)
    requires g.Valid()
    ensures multiset(OwnOnly(g, fs))[f] == if g.Holds(f) then multiset(fs)[f] else 0
    decreases |fs|
  {
    if fs != [] {
      OwnAndForeign(g, fs[..|fs| - 1], f);
      assert fs == fs[..|fs| - 1] + [fs[|fs| - 1]];
    }
  }

  /**
   `Complete` puts finished frames on this queue's own list, whatever list they
   came from. It keeps every frame in one place exactly when all it drains are
   the queue's own; a frame from elsewhere is refused there and held by nobody.
   */
  lemma {:induction false} CompleteKeepsIff(dev: Device, s: Sys, i: nat, max: int)
    requires Inv(dev, s) && i < |dev.cs| && !dev.rx[i]
    ensures var c, v := dev.cs[i], s.qs[i];
            ExactlyOnce(dev, Step(s, i, s.region, Complete(c, v, max), s.held[i], s.app))
            <==> AllOwn(c.g, multiset(Reclaim(c, v, max).1))
  {
    QueueReady(dev, s, i);
    var c, v, h := dev.cs[i], s.qs[i], s.held[i];
    var k := DrainCount(v, max);
    var fs := Drain(c, v, k).1;
    var s' := Step(s, i, s.region, Complete(c, v, max), h, s.app);
    if AllOwn(c.g, multiset(fs)) {
      KeepsComplete(dev, s, i, max);
    } else {
      var f :| f in multiset(fs) && !c.g.Holds(f);
      CompleteLoses(dev, s, i, k, f);
      assert Total(dev, s')[f] == 0;
      OneQueueOnce(dev, s, i);
      DrainPlace(c, v, h, k);
      assert f in Places(dev, s)[i] + s.app;
      assert SameRegion(dev.cs[0], c);
    }
  }

  lemma {:induction false} ForeignRefused(c: Config, v: View, h: multiset<nat>, k: nat, f: nat)
    requires ListOK(c.g, v.free) && k <= |v.returned|
    requires AtMostOnce(multiset(v.free) + multiset(Drain(c, v, k).1)) && !c.g.Holds(f)
    ensures var (v', fs) := Drain(c, v, k);
            Place(c, v'.(free := PushedAll(c.g, c.checked, v'.free, fs)), h)[f] + multiset(fs)[f] == Place(c, v, h)[f]
  {
    var (v1, fs) := Drain(c, v, k);
    DrainPlace(c, v, h, k);
    assert (Place(c, v1, h) + multiset(fs))[f] == Place(c, v, h)[f];
    OwnOnceIs(c.g, multiset(v1.free) + multiset(fs));
    PushedKeepsOwn(c.g, c.checked, v1.free, fs);
    OwnAndForeign(c.g, fs, f);
    MoreFree(c, v1, h, v1.free + OwnOnly(c.g, fs), multiset(OwnOnly(c.g, fs)));
  }

  lemma {:induction false} CompleteLoses(dev: Device, s: Sys, i: nat, k: nat, f: nat)
    requires Inv(dev, s) && i < |dev.cs| && k <= |s.qs[i].returned|
    requires var (v, fs) := Drain(dev.cs[i], s.qs[i], k); f in multiset(fs) && !dev.cs[i].g.Holds(f)
    ensures var (v, fs) := Drain(dev.cs[i], s.qs[i], k);
            Total(dev, Step(s, i, s.region, v.(free := PushedAll(dev.cs[i].g, dev.cs[i].checked, v.free, fs)),
                s.held[i], s.app))[f] == 0
  {
    QueueReady(dev, s, i);
    var c, v, h := dev.cs[i], s.qs[i], s.held[i];
    var (v1, fs) := Drain(c, v, k);
    var v2 := v1.(free := PushedAll(c.g, c.checked, v1.free, fs));
    DrainedOnce(c, v, h, s.app, k);
    ForeignRefused(c, v, h, k, f);
    TotalChange(dev, s, i, v2, f);
    assert Total(dev, s)[f] <= 1;
  }

  lemma {:induction false} TotalChange(dev: Device, s: Sys, i: nat, v: View, f: nat)
    requires Shaped(dev, s) && i < |dev.cs|
    ensures Total(dev, Step(s, i, s.region, v, s.held[i], s.app))[f] + Place(dev.cs[i], s.qs[i], s.held[i])[f] ==
            Total(dev, s)[f] + Place(dev.cs[i], v, s.held[i])[f]
  {
    var ps, p := Places(dev, s), Place(dev.cs[i], v, s.held[i]);
    assert Places(dev, Step(s, i, s.region, v, s.held[i], s.app)) == ps[i := p];
    SumUpdate(ps, i, p);
    assert (Sum(ps[i := p]) + ps[i])[f] == (Sum(ps) + p)[f];
  }

  // ------------------------------------- how big the returned ring has to be

  /** A transmit queue that has sent nothing. */
  ghost function Idle(c: Config): View { View(Full(c.g), [], [], 0, false, false) }

  /** Whether a batch an idle queue offers, all taken and then all freed, fits the returned ring. */
  ghost predicate FitsBack(c: Config, ds: seq<Desc>) {
    var k := Offered(c, Idle(c), ds);
    |Enqueued(c, Transmit(c, Idle(c), k), HeaderVAs(c, ds[..k])).returned| == k
  }

  ghost predicate DistinctFrames(c: Config, ds: seq<Desc>) {
    (forall j :: 0 <= j < |ds| ==> DescOK(c, ds[j])) && NoDup(FramesOf(c, ds))
  }

  /**
   The ring is sized from the queue's own frames, but a forwarder sends others'
   too. No batch of distinct frames can overflow it exactly when it covers the
   depth, or the whole region if that is smaller.
   */
  lemma {:induction false} RingCoversIff(c: Config)
    ensures (forall ds :: DistinctFrames(c, ds) ==> FitsBack(c, ds))
            <==> Min(c.depth, c.regionLen / c.l.frameSize) <= c.cap
  {
    var m := c.regionLen / c.l.frameSize;
    var n := Min(c.depth, m);
    if n <= c.cap {
      forall ds | DistinctFrames(c, ds)
        ensures FitsBack(c, ds)
      {
        DistinctBound(c, ds);
      }
    } else {
      var ds := FirstFrames(c, n);
      FirstFramesOK(c, n);
      assert ds[..n] == ds;
      assert !FitsBack(c, ds);
    }
  }

  lemma {:induction false} DistinctBound(c: Config, ds: seq<Desc>)
    requires DistinctFrames(c, ds)
    ensures |ds| <= c.regionLen / c.l.frameSize
  {
    var m := c.l.frameSize;
    var g := Geometry(0, c.regionLen / m, m);
    assert c.regionLen == m * (c.regionLen / m);
    assert (0 + c.regionLen / m) * m == c.regionLen;
    assert g.Valid() && g.End() == c.regionLen;
    var fs := FramesOf(c, ds);
    forall f
      ensures multiset(fs)[f] <= 1 && (f in multiset(fs) ==> g.Holds(f))
    {
      NoDupCount(fs, f);
      if f in fs {
        var j :| 0 <= j < |fs| && fs[j] == f;
        assert DescOK(c, ds[j]);
      }
    }
    OwnCount(g, multiset(fs));
  }

  /** One byte at the start of the data buffer of each of the first `n` frames. */
  ghost function FirstFrames(c: Config, n: nat): (ds: seq<Desc>)
    requires n <= c.regionLen / c.l.frameSize
    ensures |ds| == n
  {
    seq(n, j requires 0 <= j < n => FirstByte(c, j))
  }

  ghost function FirstByte(c: Config, j: nat): Desc
    requires j < c.regionLen / c.l.frameSize
  {
    NthFrame(c, j);
    FrameFits(c, j * c.l.frameSize);
    Desc(j * c.l.frameSize + c.l.BufStart(), 1, 0)
  }

  lemma {:induction false} NthFrame(c: Config, j: nat)
    requires j < c.regionLen / c.l.frameSize
    ensures IsFrame(c, j * c.l.frameSize)
  {
    var m := c.l.frameSize;
    var q := c.regionLen / m;
    assert c.regionLen == m * q;
    ModUnique(j * m, m, j, 0);
    MulAtLeast(q - j, m);
    assert (q - j) * m == q * m - j * m;
    assert j * m >= 0;
  }

  lemma {:induction false} FirstFramesOK(c: Config, n: nat)
    requires n <= c.regionLen / c.l.frameSize && n <= c.depth
    ensures DistinctFrames(c, FirstFrames(c, n)) && Offered(c, Idle(c), FirstFrames(c, n)) == n
  {
    var ds, m := FirstFrames(c, n), c.l.frameSize;
    forall j | 0 <= j < n
      ensures DescOK(c, ds[j]) && FramesOf(c, ds)[j] == j * m
    {
      NthFrame(c, j);
      FrameFits(c, j * m);
      FrameUnique(j * m + c.l.BufStart(), j * m, m);
      assert InPacketArea(c, ds[j], j * m);
      DescOKMeans(c, ds[j]);
    }
    forall i, j | 0 <= i < j < n
      ensures FramesOf(c, ds)[i] != FramesOf(c, ds)[j]
    {
      MulAtLeast(j - i, m);
      assert (j - i) * m == j * m - i * m;
    }
    assert ds[..n] == ds;
  }
}
