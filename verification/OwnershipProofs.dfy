/**
 The proofs behind `Ownership`: every step keeps each frame in exactly one
 place, with the ledgers exact, and so does every run.
 */
module OwnershipProofs {
  import opened Words
  import opened Bytes
  import opened Pool
  import opened QueueSpec
  import opened Ownership
  import Mbuf

  // --------------------------------------------- addresses back to frames

  lemma {:induction false} DrainedConcat(c: Config, a: seq<u64>, b: seq<u64>)
    ensures Drained(c, a + b) == Drained(c, a) + Drained(c, b)
    decreases |b|
  {
    if b == [] {
      assert a + b == a;
    } else {
      var n := |b| - 1;
      DrainedConcat(c, a, b[..n]);
      assert (a + b)[..|a + b| - 1] == a + b[..n];
    }
  }

  lemma {:induction false} DrainedCut(c: Config, vas: seq<u64>, k: nat)
    requires k <= |vas|
    ensures Drained(c, vas) == Drained(c, vas[..k]) + Drained(c, vas[k..])
  {
    assert vas == vas[..k] + vas[k..];
    DrainedConcat(c, vas[..k], vas[k..]);
  }

  lemma {:induction false} DrainedAll(c: Config, vas: seq<u64>)
    requires AllIn(c, vas)
    ensures |Drained(c, vas)| == |vas| && !AnyForeign(c, vas)
    ensures forall k :: 0 <= k < |vas| ==> Drained(c, vas)[k] == FrameOfVA(c, vas[k]) && IsFrame(c, Drained(c, vas)[k])
    decreases |vas|
  {
    if vas != [] {
      DrainedAll(c, vas[..|vas| - 1]);
    }
  }

  lemma {:induction false} DrainedOfFrames(c: Config, frames: seq<nat>)
    requires forall k :: 0 <= k < |frames| ==> IsFrame(c, frames[k])
    ensures AllIn(c, FrameVAs(c, frames)) && Drained(c, FrameVAs(c, frames)) == frames
  {
    var vas := FrameVAs(c, frames);
    forall k | 0 <= k < |frames|
      ensures InRegion(c, vas[k]) && FrameOfVA(c, vas[k]) == frames[k]
    {
      FrameUnique(frames[k], frames[k], c.l.frameSize);
      VARoundTrip(c, frames[k]);
    }
    DrainedAll(c, vas);
  }

  // ------------------------------------------------- no frame held twice

  ghost predicate AtMostOnce(m: multiset<nat>) {
    forall f :: m[f] <= 1
  }

  lemma {:induction false} SmallerAtMostOnce(a: multiset<nat>, b: multiset<nat>)
    requires a <= b && AtMostOnce(b)
    ensures AtMostOnce(a)
  {
    forall f ensures a[f] <= 1 { assert a[f] <= b[f]; }
  }

  lemma {:induction false} SmallerSize(a: multiset<nat>, b: multiset<nat>)
    requires a <= b
    ensures |a| <= |b|
  {
    assert b == a + (b - a);
  }

  /** A slice has no more distinct frames than it was given. */
  lemma {:induction false} OwnCount(g: Geometry, m: multiset<nat>)
    requires g.Valid() && AtMostOnce(m) && AllOwn(g, m)
    ensures |m| <= g.count
  {
    FullOK(g);
    var all := multiset(Full(g));
    forall f | f in m
      ensures m[f] <= all[f]
    {
      assert g.Holds(f);
      assert f in Full(g);
    }
    SmallerSize(m, all);
  }

  // ------------------------------------------------------- the free list

  /** The frames of `fs` that belong to the slice. */
  function OwnOnly(g: Geometry, fs: seq<nat>): seq<nat>
    requires g.frameSize > 0
    decreases |fs|
  {
    if fs == [] then []
    else
      var rest := OwnOnly(g, fs[..|fs| - 1]);
      if g.Holds(fs[|fs| - 1]) then rest + [fs[|fs| - 1]] else rest
  }

  lemma {:induction false} OwnOnlyBound(g: Geometry, fs: seq<nat>)
    requires g.frameSize > 0
    ensures multiset(OwnOnly(g, fs)) <= multiset(fs)
    ensures forall k :: 0 <= k < |OwnOnly(g, fs)| ==> g.Holds(OwnOnly(g, fs)[k])
    decreases |fs|
  {
    if fs != [] {
      OwnOnlyBound(g, fs[..|fs| - 1]);
      assert fs == fs[..|fs| - 1] + [fs[|fs| - 1]];
    }
  }

  lemma {:induction false} AllOwnKept(g: Geometry, fs: seq<nat>)
    requires g.frameSize > 0 && AllOwn(g, multiset(fs))
    ensures OwnOnly(g, fs) == fs
    decreases |fs|
  {
    if fs != [] {
      var pre := fs[..|fs| - 1];
      assert fs == pre + [fs[|fs| - 1]];
      assert fs[|fs| - 1] in multiset(fs);
      assert forall f :: f in multiset(pre) ==> f in multiset(fs);
      AllOwnKept(g, pre);
    }
  }

  /** No frame of the slice is there twice; others may be. */
  ghost predicate OwnOnce(g: Geometry, m: multiset<nat>)
    requires g.frameSize > 0
  {
    forall f: nat {:trigger m[f]} :: g.Holds(f) ==> m[f] <= 1
  }

  lemma {:induction false} SmallerOwnOnce(g: Geometry, a: multiset<nat>, b: multiset<nat>)
    requires g.frameSize > 0 && a <= b && OwnOnce(g, b)
    ensures OwnOnce(g, a)
  {
    forall f: nat | g.Holds(f)
      ensures a[f] <= 1
    {
      assert b[f] <= 1;
    }
  }

  /**
   Frames held once each go on the list, in order, if they belong to the slice,
   and are refused if they do not: the list is never full and never has one already.
   */
  lemma {:induction false} PushedKeepsOwn(g: Geometry, checked: bool, free: seq<nat>, fs: seq<nat>)
    requires g.Valid() && ListOK(g, free) && OwnOnce(g, multiset(free) + multiset(fs))
    ensures PushedAll(g, checked, free, fs) == free + OwnOnly(g, fs)
    ensures ListOK(g, free + OwnOnly(g, fs))
    decreases |fs|
  {
    hide ListOK, OwnOnce, Geometry.Holds, Accepts;
    if fs == [] {
      assert free + [] == free;
    } else {
      var pre, f := fs[..|fs| - 1], fs[|fs| - 1];
      assert fs == pre + [f];
      assert multiset(fs) == multiset(pre) + multiset{f};
      SmallerOwnOnce(g, multiset(free) + multiset(pre), multiset(free) + multiset(fs));
      PushedKeepsOwn(g, checked, free, pre);
      OwnOnlyBound(g, pre);
      if g.Holds(f) {
        PushOneMore(g, checked, free, OwnOnly(g, pre), multiset(pre), f);
        assert free + OwnOnly(g, pre) + [f] == free + OwnOnly(g, fs);
      } else {
        NotAccepted(g, checked, PushedAll(g, checked, free, pre), f);
      }
    }
  }

  lemma {:induction false} NotAccepted(g: Geometry, checked: bool, free: seq<nat>, f: nat)
    requires g.frameSize > 0 && !g.Holds(f)
    ensures !Accepts(g, checked, free, f)
  {
  }

  lemma {:induction false} PushOneMore(g: Geometry, checked: bool, free: seq<nat>, own: seq<nat>, pre: multiset<nat>,
                                       f: nat)
    requires g.Valid() && ListOK(g, free + own) && g.Holds(f)
    requires multiset(own) <= pre && OwnOnce(g, multiset(free) + (pre + multiset{f}))
    ensures Accepts(g, checked, free + own, f) && ListOK(g, free + own + [f])
  {
    hide Geometry.Holds;
    var list := free + own;
    var more := multiset(list) + multiset{f};
    assert multiset(list) == multiset(free) + multiset(own);
    SmallerOwnOnce(g, more, multiset(free) + (pre + multiset{f}));
    assert AllOwn(g, more) by {
      forall x | x in more ensures g.Holds(x) { assert x == f || x in list; }
    }
    assert more[f] <= 1;
    OwnOnceIs(g, more);
    OwnCount(g, more);
    assert |more| == |list| + 1;
  }

  lemma {:induction false} OwnOnceIs(g: Geometry, m: multiset<nat>)
    requires g.frameSize > 0
    ensures AtMostOnce(m) ==> OwnOnce(g, m)
    ensures OwnOnce(g, m) && AllOwn(g, m) ==> AtMostOnce(m)
  {
    hide Geometry.Holds;
    if OwnOnce(g, m) && AllOwn(g, m) {
      forall f
        ensures m[f] <= 1
      {
        if f in m {
          assert g.Holds(f);
        }
      }
    }
  }

  lemma {:induction false} PushedOwn(c: Config, free: seq<nat>, fs: seq<nat>)
    requires ListOK(c.g, free) && AtMostOnce(multiset(free) + multiset(fs))
    requires AllOwn(c.g, multiset(fs))
    ensures PushedAll(c.g, c.checked, free, fs) == free + fs && ListOK(c.g, free + fs)
  {
    OwnOnceIs(c.g, multiset(free) + multiset(fs));
    PushedKeepsOwn(c.g, c.checked, free, fs);
    AllOwnKept(c.g, fs);
  }

  // --------------------------------------------------------------- sums

  lemma {:induction false} SumUpdate(ps: seq<multiset<nat>>, i: nat, p: multiset<nat>)
    requires i < |ps|
    ensures Sum(ps[i := p]) + ps[i] == Sum(ps) + p
  {
    var n := |ps| - 1;
    if i < n {
      SumUpdate(ps[..n], i, p);
      var a, b := Sum(ps[..n][i := p]), Sum(ps[..n]);
      assert ps[i := p][..n] == ps[..n][i := p];
      assert a + ps[i] == b + p;
      assert (a + ps[n]) + ps[i] == (a + ps[i]) + ps[n] == (b + p) + ps[n] == (b + ps[n]) + p;
    } else {
      assert ps[i := p][..n] == ps[..n];
    }
  }

  lemma {:induction false} PartOfSum(ps: seq<multiset<nat>>, i: nat)
    requires i < |ps|
    ensures ps[i] <= Sum(ps)
  {
    if i < |ps| - 1 {
      PartOfSum(ps[..|ps| - 1], i);
    }
  }

  lemma {:induction false} TwoPartsOfSum(ps: seq<multiset<nat>>, i: nat, j: nat)
    requires i < j < |ps|
    ensures ps[i] + ps[j] <= Sum(ps)
  {
    var n := |ps| - 1;
    if j < n {
      TwoPartsOfSum(ps[..n], i, j);
    } else {
      PartOfSum(ps[..n], i);
    }
  }

  /** The application and two different queues never share a frame. */
  lemma {:induction false} Disjoint(dev: Device, s: Sys, i: nat, j: nat)
    requires Shaped(dev, s) && ExactlyOnce(dev, s) && i < |dev.cs| && j < |dev.cs| && i != j
    ensures forall f :: f in Places(dev, s)[j] ==> f !in Places(dev, s)[i] + s.app
  {
    var ps := Places(dev, s);
    if i < j {
      TwoPartsOfSum(ps, i, j);
    } else {
      TwoPartsOfSum(ps, j, i);
    }
    forall f | f in ps[j]
      ensures f !in ps[i] + s.app
    {
      assert (ps[i] + ps[j])[f] <= Sum(ps)[f];
      assert Total(dev, s)[f] <= 1;
    }
  }

  /** What one queue and the application hold between them, they hold once. */
  lemma {:induction false} OneQueueOnce(dev: Device, s: Sys, i: nat)
    requires Shaped(dev, s) && ExactlyOnce(dev, s) && i < |dev.cs|
    ensures var m := Places(dev, s)[i] + s.app;
            AtMostOnce(m) && forall f :: f in m ==> IsFrame(dev.cs[i], f)
  {
    var ps := Places(dev, s);
    PartOfSum(ps, i);
    var m := ps[i] + s.app;
    forall f
      ensures m[f] <= 1 && (f in m ==> IsFrame(dev.cs[i], f))
    {
      assert ps[i][f] <= Sum(ps)[f];
      assert Total(dev, s)[f] <= 1;
      assert SameRegion(dev.cs[0], dev.cs[i]);
    }
  }

  // -------------------------------------------------------------- stamps

  /** Headers of different frames do not overlap. */
  lemma {:induction false} HeadersApart(c: Config, f: nat, g: nat)
    requires IsFrame(c, f) && IsFrame(c, g) && f != g
    ensures var lo := f + c.l.objHeader + Mbuf.OFF_POOL;
            var m := g + c.l.objHeader;
            lo + 8 <= c.regionLen && (lo + 8 <= m || m + Mbuf.SIZE <= lo)
  {
    FrameFits(c, f);
    if f < g {
      MultipleGap(f, g, c.l.frameSize);
    } else {
      MultipleGap(g, f, c.l.frameSize);
    }
  }

  /** A header written at frame `g` stays clear of the pool pointer of frame `f`. */
  lemma {:induction false} OtherPool(c: Config, b: bytes, g: nat, off: u16, len: u32, f: nat)
    requires |b| == c.regionLen && IsFrame(c, f) && IsFrame(c, g) && f != g && g + c.l.objHeader + Mbuf.SIZE <= |b|
    ensures PoolAt(c, Mbuf.PreparedTx(b, g + c.l.objHeader, c.poolVA, off, len), f) == PoolAt(c, b, f)
  {
    hide Mbuf.PreparedTx, Mbuf.ResetForRx, Mbuf.RxRead, FromLE, IsFrame;
    HeadersApart(c, f, g);
    Mbuf.HeaderWritesStayInside(b, g + c.l.objHeader, c.poolVA, off, len, f + c.l.objHeader + Mbuf.OFF_POOL, 8);
  }

  lemma {:induction false} StampPool(c: Config, b: bytes, d: Desc, f: nat)
    requires |b| == c.regionLen && DescOK(c, d) && IsFrame(c, f)
    ensures PoolAt(c, Stamp(c, b, d), f) ==
            if f == FrameStart(d.addr, c.l.frameSize) then c.poolVA else PoolAt(c, b, f)
  {
    hide Mbuf.PreparedTx, Mbuf.RxRead, FromLE;
    var g := FrameStart(d.addr, c.l.frameSize);
    FrameFits(c, g);
    var off := (d.addr - g - c.l.BufStart()) % 0x10000;
    if f != g {
      OtherPool(c, b, g, off, d.len, f);
    } else {
      Mbuf.PreparedReadsBack(b, g + c.l.objHeader, c.poolVA, off, d.len);
    }
  }

  lemma {:induction false} StampAllPool(c: Config, b: bytes, ds: seq<Desc>, f: nat)
    requires |b| == c.regionLen && IsFrame(c, f)
    requires forall k :: 0 <= k < |ds| ==> DescOK(c, ds[k])
    ensures PoolAt(c, StampAll(c, b, ds), f) == if f in FramesOf(c, ds) then c.poolVA else PoolAt(c, b, f)
    decreases |ds|
  {
    hide PoolAt, Stamp;
    if ds != [] {
      var n := |ds| - 1;
      StampAllPool(c, b, ds[..n], f);
      StampPool(c, StampAll(c, b, ds[..n]), ds[n], f);
      assert FramesOf(c, ds) == FramesOf(c, ds[..n]) + [FrameStart(ds[n].addr, c.l.frameSize)];
    }
  }

  lemma {:induction false} ResetPool(c: Config, b: bytes, g: nat, f: nat)
    requires |b| == c.regionLen && IsFrame(c, f) && IsFrame(c, g) && g + c.l.objHeader + Mbuf.SIZE <= |b|
    ensures PoolAt(c, Mbuf.ResetForRx(b, g + c.l.objHeader, c.l.headroom, c.poolVA), f) ==
            if f == g then c.poolVA else PoolAt(c, b, f)
  {
    hide Mbuf.PreparedTx, Mbuf.ResetForRx, Mbuf.RxRead, FromLE;
    var m := g + c.l.objHeader;
    Mbuf.ResetReadsBack(b, m, c.l.headroom, c.poolVA);
    if f != g {
      HeadersApart(c, f, g);
      Mbuf.HeaderWritesStayInside(b, m, c.poolVA, c.l.headroom, 0, f + c.l.objHeader + Mbuf.OFF_POOL, 8);
    }
  }

  lemma {:induction false} ResetAllPool(c: Config, b: bytes, frames: seq<nat>, f: nat)
    requires |b| == c.regionLen && IsFrame(c, f)
    requires forall k :: 0 <= k < |frames| ==> IsFrame(c, frames[k])
    ensures PoolAt(c, ResetAll(c, b, frames), f) == if f in frames then c.poolVA else PoolAt(c, b, f)
    decreases |frames|
  {
    hide Mbuf.ResetForRx, PoolAt;
    if frames != [] {
      var n := |frames| - 1;
      ResetAllPool(c, b, frames[..n], f);
      FrameFits(c, frames[n]);
      ResetPool(c, ResetAll(c, b, frames[..n]), frames[n], f);
      assert frames == frames[..n] + [frames[n]];
    }
  }

  // ---------------------------------------------------- one queue's step

  /** The stamps of frames that neither the queue nor the application holds are as they were. */
  ghost predicate StampsKept(c: Config, b: bytes, b': bytes, mine: multiset<nat>)
    requires |b| == |b'| == c.regionLen
  {
    forall f: nat :: IsFrame(c, f) && f !in mine ==> PoolAt(c, b', f) == PoolAt(c, b, f)
  }

  lemma {:induction false} StampedElsewhere(ci: Config, ck: Config, b: bytes, b': bytes, mine: multiset<nat>,
                                            fs: multiset<nat>)
    requires SameRegion(ci, ck) && |b| == |b'| == ci.regionLen
    requires StampsKept(ci, b, b', mine) && Stamped(ck, b, fs)
    requires forall f :: f in fs ==> f !in mine
    ensures Stamped(ck, b', fs)
  {
    forall f | f in fs
      ensures IsFrame(ck, f) && PoolAt(ck, b', f) == ck.poolVA
    {
      assert IsFrame(ck, f) && PoolAt(ck, b, f) == ck.poolVA;
      assert PoolAt(ci, b', f) == PoolAt(ci, b, f);
    }
  }

  lemma {:induction false} OtherQueueKept(dev: Device, s: Sys, i: nat, k: nat, b: bytes)
    requires Inv(dev, s) && i < |dev.cs| && k < |dev.cs| && k != i && |b| == |s.region|
    requires SameRegion(dev.cs[0], dev.cs[i]) && SameRegion(dev.cs[0], dev.cs[k])
    requires StampsKept(dev.cs[i], s.region, b, Places(dev, s)[i] + s.app)
    ensures QInv(dev.cs[k], dev.rx[k], b, s.qs[k], s.held[k])
  {
    Disjoint(dev, s, i, k);
    var c, v, h := dev.cs[k], s.qs[k], s.held[k];
    var fs := multiset(Drained(c, v.supply)) + h;
    assert fs <= Places(dev, s)[k];
    StampedElsewhere(dev.cs[i], c, s.region, b, Places(dev, s)[i] + s.app, fs);
  }

  lemma {:induction false} TotalKept(dev: Device, s: Sys, i: nat, b: bytes, v: View, h: multiset<nat>,
                                     app: multiset<nat>)
    requires Shaped(dev, s) && i < |dev.cs| && |b| == |s.region|
    requires Place(dev.cs[i], v, h) + app == Places(dev, s)[i] + s.app
    ensures Total(dev, Step(s, i, b, v, h, app)) == Total(dev, s)
  {
    var s' := Step(s, i, b, v, h, app);
    var ps, p := Places(dev, s), Place(dev.cs[i], v, h);
    assert Places(dev, s') == ps[i := p];
    SumUpdate(ps, i, p);
    SumSwap(Sum(ps), Sum(ps[i := p]), ps[i], p, s.app, app);
  }

  lemma {:induction false} SumSwap(a: multiset<nat>, a': multiset<nat>, p: multiset<nat>, p': multiset<nat>,
                                   q: multiset<nat>, q': multiset<nat>)
    requires a' + p == a + p' && p' + q' == p + q
    ensures a' + q' == a + q
  {
    forall f
      ensures (a' + q')[f] == (a + q)[f]
    {
      assert (a' + p)[f] == (a + p')[f] && (p' + q')[f] == (p + q)[f];
    }
  }

  /** A step of one queue and the application that moves frames between them keeps the whole invariant. */
  lemma {:induction false} Lift(dev: Device, s: Sys, i: nat, b: bytes, v: View, h: multiset<nat>, app: multiset<nat>)
    requires Inv(dev, s) && i < |dev.cs| && |b| == |s.region|
    requires SameRegion(dev.cs[0], dev.cs[i])
    requires QInv(dev.cs[i], dev.rx[i], b, v, h)
    requires Place(dev.cs[i], v, h) + app == Places(dev, s)[i] + s.app
    requires StampsKept(dev.cs[i], s.region, b, Places(dev, s)[i] + s.app)
    ensures Inv(dev, Step(s, i, b, v, h, app))
  {
    var s' := Step(s, i, b, v, h, app);
    TotalKept(dev, s, i, b, v, h, app);
    forall k | 0 <= k < |dev.cs|
      ensures QInv(dev.cs[k], dev.rx[k], b, s'.qs[k], s'.held[k])
    {
      assert SameRegion(dev.cs[0], dev.cs[k]);
      if k != i {
        OtherQueueKept(dev, s, i, k, b);
      }
    }
  }

  /** Everything a single-queue step is given, and everything it has to keep. */
  ghost predicate Before(c: Config, rx: bool, b: bytes, v: View, h: multiset<nat>) {
    |b| == c.regionLen && QInv(c, rx, b, v, h)
  }

  ghost predicate After(c: Config, rx: bool, b: bytes, v: View, h: multiset<nat>, app: multiset<nat>,
                        b': bytes, v': View, h': multiset<nat>, app': multiset<nat>)
    requires |b| == c.regionLen
  {
    && |b'| == |b| && QInv(c, rx, b', v', h')
    && Place(c, v', h') + app' == Place(c, v, h) + app
    && StampsKept(c, b, b', Place(c, v, h) + app)
  }

  lemma {:induction false} ListCut(g: Geometry, free: seq<nat>, k: nat)
    requires g.frameSize > 0 && ListOK(g, free) && k <= |free|
    ensures ListOK(g, free[..k]) && AllOwn(g, multiset(free[k..])) && AllOwn(g, multiset(free))
    ensures multiset(free) == multiset(free[..k]) + multiset(free[k..])
  {
    assert free == free[..k] + free[k..];
    forall f | f in multiset(free) ensures g.Holds(f) { assert f in free; }
    forall f | f in multiset(free[k..]) ensures g.Holds(f) { assert f in free[k..] && f in free; }
  }

  lemma {:induction false} AllocStep(c: Config, b: bytes, v: View, h: multiset<nat>, app: multiset<nat>, n: int)
    requires Before(c, false, b, v, h)
    ensures var (v', fs) := Alloc(c, v, n); After(c, false, b, v, h, app, b, v', h, app + multiset(fs))
  {
    hide Drained, AllIn, Stamped, AllOwn, ListOK, PoolAt, IsFrame, Place;
    var k := AllocCount(c, v, n);
    var (v', fs) := Alloc(c, v, n);
    ListCut(c.g, v.free, |v.free| - Grant(v.free, k));
    MoreFree(c, v', h, v.free, multiset(fs));
    assert Place(c, v, h) + app == Place(c, v', h) + (app + multiset(fs));
  }

  lemma {:induction false} OfferedFrames(c: Config, ds: seq<Desc>, n: nat)
    requires n <= |ds| && forall k :: 0 <= k < n ==> DescOK(c, ds[k])
    ensures FramesOf(c, ds[..n]) == FramesOf(c, ds)[..n]
    ensures multiset(FramesOf(c, ds[..n])) <= multiset(FramesOf(c, ds))
    ensures forall f :: f in FramesOf(c, ds[..n]) ==> IsFrame(c, f)
  {
    var fs := FramesOf(c, ds);
    assert FramesOf(c, ds[..n]) == fs[..n];
    assert fs == fs[..n] + fs[n..];
  }

  // Moving frames in and out of one component of a queue's place.

  lemma {:induction false} Move(p: multiset<nat>, x: multiset<nat>, app: multiset<nat>)
    requires x <= app
    ensures (p + x) + (app - x) == p + app
  {
  }

  lemma {:induction false} MoreHeld(c: Config, v: View, h: multiset<nat>, x: multiset<nat>)
    ensures Place(c, v, h + x) == Place(c, v, h) + x && Lent(c, v, h + x) == Lent(c, v, h) + x
  {
  }

  lemma {:induction false} MoreFree(c: Config, v: View, h: multiset<nat>, free: seq<nat>, x: multiset<nat>)
    requires multiset(free) == multiset(v.free) + x
    ensures Place(c, v.(free := free), h) == Place(c, v, h) + x
    ensures Lent(c, v.(free := free), h) == Lent(c, v, h)
  {
  }

  lemma {:induction false} LessReturned(c: Config, v: View, h: multiset<nat>, vas: seq<u64>, x: multiset<nat>)
    requires multiset(Drained(c, v.returned)) == multiset(Drained(c, vas)) + x
    ensures Place(c, v.(returned := vas), h) + x == Place(c, v, h)
    ensures Lent(c, v.(returned := vas), h) + x == Lent(c, v, h)
  {
  }

  lemma {:induction false} AllOwnSum(g: Geometry, a: multiset<nat>, x: multiset<nat>)
    requires g.frameSize > 0
    ensures AllOwn(g, a + x) <==> AllOwn(g, a) && AllOwn(g, x)
  {
    if AllOwn(g, a + x) {
      forall f | f in a ensures g.Holds(f) { assert f in a + x; }
      forall f | f in x ensures g.Holds(f) { assert f in a + x; }
    }
  }

  lemma {:induction false} SendStamps(c: Config, b: bytes, v: View, h: multiset<nat>, app: multiset<nat>,
                                      ds: seq<Desc>, k: nat, n: nat)
    requires |b| == c.regionLen && Stamped(c, b, h) && multiset(FramesOf(c, ds)) <= app
    requires n <= k <= |ds| && forall j :: 0 <= j < k ==> DescOK(c, ds[j])
    ensures var b' := StampAll(c, b, ds[..k]);
            Stamped(c, b', h + multiset(FramesOf(c, ds[..n]))) && StampsKept(c, b, b', Place(c, v, h) + app)
  {
    var b' := StampAll(c, b, ds[..k]);
    var sent, offered := FramesOf(c, ds[..n]), FramesOf(c, ds[..k]);
    OfferedFrames(c, ds, k);
    OfferedFrames(c, ds, n);
    assert sent == offered[..n];
    forall f | f in h + multiset(sent)
      ensures IsFrame(c, f) && PoolAt(c, b', f) == c.poolVA
    {
      assert f in sent ==> f in offered;
      StampAllPool(c, b, ds[..k], f);
    }
    forall f: nat | IsFrame(c, f) && f !in Place(c, v, h) + app
      ensures PoolAt(c, b', f) == PoolAt(c, b, f)
    {
      StampAllPool(c, b, ds[..k], f);
      assert f in offered ==> f in multiset(offered);
    }
  }

  /** Frames move from the application to the driver. */
  lemma {:induction false} LendStep(c: Config, b: bytes, b': bytes, v: View, h: multiset<nat>, app: multiset<nat>,
                                    fs: multiset<nat>)
    requires Before(c, false, b, v, h) && |b'| == |b| && fs <= app && v.ledger + |fs| <= c.depth
    requires Confined(c, false) ==> AllOwn(c.g, fs)
    requires Stamped(c, b', h + fs) && StampsKept(c, b, b', Place(c, v, h) + app)
    ensures After(c, false, b, v, h, app, b', v.(ledger := v.ledger + |fs|), h + fs, app - fs)
  {
    var v' := v.(ledger := v.ledger + |fs|);
    assert multiset(Drained(c, v'.supply)) + (h + fs) == h + fs by { assert Drained(c, v.supply) == []; }
    MoreHeld(c, v', h, fs);
    assert Place(c, v', h) == Place(c, v, h) && Lent(c, v', h) == Lent(c, v, h);
    Move(Place(c, v, h), fs, app);
    AllOwnSum(c.g, Lent(c, v, h), fs);
    assert |h + fs| == |h| + |fs|;
  }

  /** The first `n` offered descriptors are taken. */
  lemma {:induction false} SendStep(c: Config, b: bytes, b': bytes, v: View, h: multiset<nat>, app: multiset<nat>,
                                    all: seq<nat>, n: nat)
    requires Before(c, false, b, v, h) && |b'| == |b| && n <= |all| && multiset(all) <= app
    requires Confined(c, false) ==> AllOwn(c.g, multiset(all))
    requires v.ledger + n <= c.depth
    requires Stamped(c, b', h + multiset(all[..n])) && StampsKept(c, b, b', Place(c, v, h) + app)
    ensures After(c, false, b, v, h, app, b', Transmit(c, v, n), h + multiset(all[..n]), app - multiset(all[..n]))
  {
    var fs := multiset(all[..n]);
    assert all == all[..n] + all[n..];
    AllOwnSum(c.g, fs, multiset(all[n..]));
    assert |fs| == n;
    LendStep(c, b, b', v, h, app, fs);
  }

  lemma {:induction false} SameBytes(c: Config, b: bytes, mine: multiset<nat>)
    requires |b| == c.regionLen
    ensures StampsKept(c, b, b, mine)
  {
  }

  /** Taking `k` addresses off the returned ring yields `k` frames, each its own. */
  lemma {:induction false} DrainPlace(c: Config, v: View, h: multiset<nat>, k: nat)
    requires k <= |v.returned|
    ensures var (v', fs) := Drain(c, v, k);
            Place(c, v', h) + multiset(fs) == Place(c, v, h) && Lent(c, v', h) + multiset(fs) == Lent(c, v, h)
  {
    var (v', fs) := Drain(c, v, k);
    DrainedCut(c, v.returned, k);
    var rest := v.returned[k..];
    LessReturned(c, v, h, rest, multiset(fs));
    assert Place(c, v', h) == Place(c, v.(returned := rest), h);
    assert Lent(c, v', h) == Lent(c, v.(returned := rest), h);
  }

  lemma {:induction false} DrainRings(c: Config, rx: bool, v: View, h: multiset<nat>, k: nat)
    requires k <= |v.returned| && AllIn(c, v.returned) && LedgerExact(c, rx, v, h)
    ensures var v' := Drain(c, v, k).0;
            AllIn(c, v'.returned) && LedgerExact(c, rx, v', h) && v'.dead == v.dead
  {
    DrainedAll(c, v.returned[..k]);
    var rest := v.returned[k..];
    forall j | 0 <= j < |rest| ensures InRegion(c, rest[j]) { assert rest[j] == v.returned[k + j]; }
  }

  lemma {:induction false} DrainStep(c: Config, rx: bool, b: bytes, v: View, h: multiset<nat>, app: multiset<nat>,
                                     k: nat)
    requires Before(c, rx, b, v, h) && k <= |v.returned|
    ensures var (v', fs) := Drain(c, v, k);
            && After(c, rx, b, v, h, app, b, v', h, app + multiset(fs))
            && (Confined(c, rx) ==> AllOwn(c.g, multiset(fs)))
  {
    var (v', fs) := Drain(c, v, k);
    DrainRings(c, rx, v, h, k);
    DrainPlace(c, v, h, k);
    AllOwnSum(c.g, Lent(c, v', h), multiset(fs));
    SameBytes(c, b, Place(c, v, h) + app);
    assert Place(c, v', h) + (app + multiset(fs)) == Place(c, v, h) + app;
  }

  /** Frames the application holds go back on the list they belong to. */
  lemma {:induction false} PushStep(c: Config, rx: bool, b: bytes, v: View, h: multiset<nat>, app: multiset<nat>,
                                    fs: seq<nat>)
    requires Before(c, rx, b, v, h) && multiset(fs) <= app && AllOwn(c.g, multiset(fs))
    requires AtMostOnce(multiset(v.free) + multiset(fs))
    ensures After(c, rx, b, v, h, app, b, v.(free := PushedAll(c.g, c.checked, v.free, fs)), h, app - multiset(fs))
  {
    var x := multiset(fs);
    PushedOwn(c, v.free, fs);
    MoreFree(c, v, h, v.free + fs, x);
    Move(Place(c, v, h), x, app);
  }

  /** Two steps in a row, the second with no write to the region. */
  lemma {:induction false} Chain(c: Config, rx: bool, b: bytes, v: View, h: multiset<nat>, app: multiset<nat>,
              b1: bytes, v1: View, h1: multiset<nat>, app1: multiset<nat>,
              v2: View, h2: multiset<nat>, app2: multiset<nat>)
    requires Before(c, rx, b, v, h)
    requires After(c, rx, b, v, h, app, b1, v1, h1, app1)
    requires After(c, rx, b1, v1, h1, app1, b1, v2, h2, app2)
    ensures After(c, rx, b, v, h, app, b1, v2, h2, app2)
  {
  }

  lemma {:induction false} DrainAndPush(c: Config, rx: bool, b: bytes, v: View, h: multiset<nat>, app: multiset<nat>,
                                        k: nat)
    requires Before(c, rx, b, v, h) && k <= |v.returned| && AllOwn(c.g, multiset(Drain(c, v, k).1))
    requires AtMostOnce(multiset(v.free) + multiset(Drain(c, v, k).1))
    ensures var (v', fs) := Drain(c, v, k);
            After(c, rx, b, v, h, app, b, v'.(free := PushedAll(c.g, c.checked, v'.free, fs)), h, app)
  {
    DrainStep(c, rx, b, v, h, app, k);
    var (v', fs) := Drain(c, v, k);
    PushStep(c, rx, b, v', h, app + multiset(fs), fs);
    assert app + multiset(fs) - multiset(fs) == app;
    var v2 := v'.(free := PushedAll(c.g, c.checked, v'.free, fs));
    Chain(c, rx, b, v, h, app, b, v', h, app + multiset(fs), v2, h, app);
  }

  lemma {:induction false} FillStamps(c: Config, b: bytes, v: View, h: multiset<nat>, app: multiset<nat>,
                                      taken: seq<nat>, up: multiset<nat>)
    requires |b| == c.regionLen && Stamped(c, b, multiset(Drained(c, v.supply)) + h)
    requires forall k :: 0 <= k < |taken| ==> IsFrame(c, taken[k])
    requires multiset(taken) <= multiset(v.free) && up <= multiset(taken)
    ensures var b' := ResetAll(c, b, taken);
            && Stamped(c, b', multiset(Drained(c, v.supply)) + up + h)
            && StampsKept(c, b, b', Place(c, v, h) + app)
  {
    var b' := ResetAll(c, b, taken);
    forall f | f in multiset(Drained(c, v.supply)) + up + h
      ensures IsFrame(c, f) && PoolAt(c, b', f) == c.poolVA
    {
      if f in up {
        assert f in multiset(taken);
        assert f in taken;
      } else {
        assert f in multiset(Drained(c, v.supply)) + h;
      }
      ResetAllPool(c, b, taken, f);
    }
    forall f: nat | IsFrame(c, f) && f !in Place(c, v, h) + app
      ensures PoolAt(c, b', f) == PoolAt(c, b, f)
    {
      ResetAllPool(c, b, taken, f);
      assert f in taken ==> f in multiset(taken);
    }
  }

  /** Where a slice of the free list goes: `kept` stays, `up` is posted, `back` is refused. */
  lemma {:induction false} FillParts(c: Config, free: seq<nat>, k: nat, posted: nat)
    requires ListOK(c.g, free) && posted <= k <= |free|
    ensures var kept, taken := Kept(free, k), Taken(free, k);
            var up, back := multiset(taken[..posted]), multiset(taken[posted..]);
            && ListOK(c.g, kept) && AllOwn(c.g, back) && AllOwn(c.g, up)
            && multiset(taken) == up + back && multiset(free) == multiset(kept) + back + up
  {
    hide ListOK, AllOwn;
    var kept, taken := Kept(free, k), Taken(free, k);
    var up, back := multiset(taken[..posted]), multiset(taken[posted..]);
    ListCut(c.g, free, |free| - k);
    assert multiset(taken) == up + back by { assert taken == taken[..posted] + taken[posted..]; }
    AllOwnSum(c.g, up, back);
    assert multiset(kept) + (up + back) == multiset(kept) + back + up;
  }

  /** Frames move from the list to the supply. */
  lemma {:induction false} PostStep(c: Config, b: bytes, b': bytes, v: View, h: multiset<nat>, app: multiset<nat>,
                 free: seq<nat>, supply: seq<u64>, up: multiset<nat>)
    requires Before(c, true, b, v, h) && |b'| == |b|
    requires ListOK(c.g, free) && AllIn(c, supply) && AllOwn(c.g, up)
    requires multiset(v.free) == multiset(free) + up
    requires multiset(Drained(c, supply)) == multiset(Drained(c, v.supply)) + up
    requires |supply| == |v.supply| + |up| && |supply| <= c.cap
    requires Stamped(c, b', multiset(Drained(c, v.supply)) + up + h)
    requires StampsKept(c, b, b', Place(c, v, h) + app)
    ensures After(c, true, b, v, h, app, b', v.(free := free, supply := supply, ledger := v.ledger + |up|), h, app)
  {
    var v' := v.(free := free, supply := supply, ledger := v.ledger + |up|);
    FillAlgebra(multiset(free), up, multiset(Drained(c, v.supply)), multiset(Drained(c, v.returned)), h);
    AllOwnSum(c.g, Lent(c, v, h), up);
    assert Lent(c, v', h) == Lent(c, v, h) + up;
    assert Place(c, v', h) == Place(c, v, h);
  }

  lemma {:induction false} FillAlgebra(free: multiset<nat>, up: multiset<nat>,
                    supply: multiset<nat>, returned: multiset<nat>, h: multiset<nat>)
    ensures free + (supply + up) + returned + h == (free + up) + supply + returned + h
    ensures (supply + up) + returned + h == supply + returned + h + up
  {
  }

  /** The frames that found no room go back on the list as they were. */
  lemma {:induction false} FillGivesBack(c: Config, free: seq<nat>, k: nat, posted: nat)
    requires ListOK(c.g, free) && AtMostOnce(multiset(free)) && posted <= k <= |free|
    ensures var kept, taken := Kept(free, k), Taken(free, k);
            var rest := kept + taken[posted..];
            && PushedAll(c.g, c.checked, kept, taken[posted..]) == rest && ListOK(c.g, rest)
            && multiset(free) == multiset(rest) + multiset(taken[..posted]) && AllOwn(c.g, multiset(taken[..posted]))
            && multiset(taken[..posted]) <= multiset(taken)
  {
    hide PushedAll, ListOK, AllOwn, AtMostOnce;
    var kept, taken := Kept(free, k), Taken(free, k);
    FillParts(c, free, k, posted);
    SmallerAtMostOnce(multiset(kept) + multiset(taken[posted..]), multiset(free));
    PushedOwn(c, kept, taken[posted..]);
    assert multiset(kept + taken[posted..]) == multiset(kept) + multiset(taken[posted..]);
  }

  /** What `Fill` leaves on the list and in the supply, and the frames `up` that moved. */
  lemma {:induction false} FillMoves(c: Config, v: View, n: int)
    returns (free: seq<nat>, supply: seq<u64>, up: multiset<nat>)
    requires |v.supply| <= c.cap && ListOK(c.g, v.free) && AllIn(c, v.supply)
    requires AtMostOnce(multiset(v.free))
    requires forall k :: 0 <= k < |v.free| ==> IsFrame(c, v.free[k])
    ensures Fill(c, v, n).0 == v.(free := free, supply := supply, ledger := v.ledger + |up|)
    ensures ListOK(c.g, free) && AllIn(c, supply) && AllOwn(c.g, up)
    ensures multiset(v.free) == multiset(free) + up && up <= multiset(Taken(v.free, FillCount(v, n)))
    ensures multiset(Drained(c, supply)) == multiset(Drained(c, v.supply)) + up
    ensures |supply| == |v.supply| + |up| && |supply| <= c.cap
  {
    hide Drained, PushedAll, ListOK, AllIn, AllOwn, AtMostOnce, FrameVAs, IsFrame, Fill, Kept;
    var k := FillCount(v, n);
    var posted := Min(k, c.cap - |v.supply|);
    var taken := Taken(v.free, k);
    up := multiset(taken[..posted]);
    free, supply := Kept(v.free, k) + taken[posted..], v.supply + FrameVAs(c, taken)[..posted];
    FillGivesBack(c, v.free, k, posted);
    PostedVAs(c, v, taken, posted);
    FillIs(c, v, n, k, posted);
  }

  lemma {:induction false} FillIs(c: Config, v: View, n: int, k: nat, posted: nat)
    requires |v.supply| <= c.cap && k == FillCount(v, n) && posted == Min(k, c.cap - |v.supply|)
    requires forall i :: 0 <= i < |v.free| ==> IsFrame(c, v.free[i])
    ensures var taken := Taken(v.free, k);
            && |taken| == k
            && Fill(c, v, n).0 == v.(free := PushedAll(c.g, c.checked, Kept(v.free, k), taken[posted..]),
                                     supply := v.supply + FrameVAs(c, taken)[..posted], ledger := v.ledger + posted)
  {
    hide PushedAll, FrameVAs, IsFrame;
  }

  lemma {:induction false} FillStep(c: Config, b: bytes, v: View, h: multiset<nat>, app: multiset<nat>, n: int)
    requires Before(c, true, b, v, h) && AtMostOnce(multiset(v.free))
    requires forall k :: 0 <= k < |v.free| ==> IsFrame(c, v.free[k])
    ensures After(c, true, b, v, h, app, ResetAll(c, b, Taken(v.free, FillCount(v, n))), Fill(c, v, n).0, h, app)
  {
    hide Drained, PushedAll, ListOK, AllIn, AllOwn, AtMostOnce, After, ResetAll, Fill;
    var free, supply, up := FillMoves(c, v, n);
    var taken := Taken(v.free, FillCount(v, n));
    FillParts(c, v.free, FillCount(v, n), 0);
    FillStamps(c, b, v, h, app, taken, up);
    PostStep(c, b, ResetAll(c, b, taken), v, h, app, free, supply, up);
  }

  lemma {:induction false} PostedVAs(c: Config, v: View, taken: seq<nat>, posted: nat)
    requires AllIn(c, v.supply) && posted <= |taken|
    requires forall k :: 0 <= k < |taken| ==> IsFrame(c, taken[k])
    ensures var vas := FrameVAs(c, taken)[..posted];
            && AllIn(c, v.supply + vas)
            && multiset(Drained(c, v.supply + vas)) == multiset(Drained(c, v.supply)) + multiset(taken[..posted])
  {
    var up := taken[..posted];
    DrainedOfFrames(c, up);
    assert FrameVAs(c, taken)[..posted] == FrameVAs(c, up);
    DrainedConcat(c, v.supply, FrameVAs(c, up));
  }

  /** A delivered burst splits into packets for the application and frames taken back. */
  lemma {:induction false} BurstSplits(c: Config, b: bytes, vas: seq<u64>)
    requires |b| == c.regionLen && AllIn(c, vas)
    requires forall k :: 0 <= k < |vas| ==> InOwnBuffer(c, b, vas[k])
    ensures multiset(Refusals(c, b, vas)) + multiset(FramesOf(c, Descs(c, b, vas))) == multiset(Drained(c, vas))
    decreases |vas|
  {
    if vas != [] {
      var n := |vas| - 1;
      BurstSplits(c, b, vas[..n]);
      BurstOne(c, b, vas);
      var f := FrameOfVA(c, vas[n]);
      assert multiset(Drained(c, vas)) == multiset(Drained(c, vas[..n])) + multiset{f};
    }
  }

  lemma {:induction false} BurstOne(c: Config, b: bytes, vas: seq<u64>)
    requires |b| == c.regionLen && AllIn(c, vas) && vas != [] && InOwnBuffer(c, b, vas[|vas| - 1])
    ensures var pre, f := vas[..|vas| - 1], FrameOfVA(c, vas[|vas| - 1]);
            multiset(Refusals(c, b, vas)) + multiset(FramesOf(c, Descs(c, b, vas))) ==
            multiset(Refusals(c, b, pre)) + multiset(FramesOf(c, Descs(c, b, pre))) + multiset{f}
  {
    var n := |vas| - 1;
    DeliveredInFrame(c, b, vas[n]);
    match Classify(c, b, vas[n])
    case Delivered(d) =>
      var ds := Descs(c, b, vas[..n]);
      assert FramesOf(c, ds + [d]) == FramesOf(c, ds) + [FrameStart(d.addr, c.l.frameSize)];
    case _ =>
  }

  /** The driver wrote a data offset inside the frame it is handing over. */
  ghost predicate InOwnBuffer(c: Config, b: bytes, va: u64)
    requires |b| == c.regionLen && InRegion(c, va)
  {
    FrameFits(c, FrameOfVA(c, va));
    InBuffer(c, b, FrameOfVA(c, va))
  }

  /** What becomes of frames the driver hands over, each with a data offset inside it. */
  lemma {:induction false} BurstOfFrames(c: Config, b: bytes, frames: seq<nat>)
    requires |b| == c.regionLen
    requires forall k :: 0 <= k < |frames| ==> IsFrame(c, frames[k])
    requires forall k :: 0 <= k < |frames| ==> (FrameFits(c, frames[k]); InBuffer(c, b, frames[k]))
    ensures var vas := FrameVAs(c, frames);
            && TakenBy(c, vas) == |frames| && !AnyForeign(c, vas)
            && multiset(Refusals(c, b, vas)) + multiset(FramesOf(c, Descs(c, b, vas))) == multiset(frames)
  {
    var vas := FrameVAs(c, frames);
    DrainedOfFrames(c, frames);
    DrainedAll(c, vas);
    forall k | 0 <= k < |vas|
      ensures InOwnBuffer(c, b, vas[k])
    {
      assert FrameOfVA(c, vas[k]) == frames[k];
    }
    BurstSplits(c, b, vas);
  }

  lemma {:induction false} DeliverStep(c: Config, b: bytes, v: View, h: multiset<nat>, app: multiset<nat>,
                    frames: multiset<nat>, refused: seq<nat>, out: multiset<nat>)
    requires Before(c, true, b, v, h) && frames <= h && multiset(refused) + out == frames
    requires AtMostOnce(multiset(v.free) + frames)
    ensures After(c, true, b, v, h, app, b,
                  v.(free := PushedAll(c.g, c.checked, v.free, refused), ledger := v.ledger - |frames|), h - frames,
                      app + out)
  {
    assert AllOwn(c.g, multiset(refused)) by {
      LentOwn(c, v, h, frames, multiset(refused));
    }
    assert PushedAll(c.g, c.checked, v.free, refused) == v.free + refused && ListOK(c.g, v.free + refused) by {
      SmallerAtMostOnce(multiset(v.free) + multiset(refused), multiset(v.free) + frames);
      PushedOwn(c, v.free, refused);
    }
    TakeStep(c, b, v, h, app, v.free + refused, frames, multiset(refused), out);
  }

  lemma {:induction false} LentOwn(c: Config, v: View, h: multiset<nat>, fs: multiset<nat>, refused: multiset<nat>)
    requires AllOwn(c.g, Lent(c, v, h)) && fs <= h && refused <= fs
    ensures AllOwn(c.g, refused)
  {
    forall f | f in refused ensures c.g.Holds(f) { assert f in Lent(c, v, h); }
  }

  /** Frames `fs` leave the driver: `refused` for the list, `out` for the application. */
  lemma {:induction false} TakeStep(c: Config, b: bytes, v: View, h: multiset<nat>, app: multiset<nat>,
                 free: seq<nat>, fs: multiset<nat>, refused: multiset<nat>, out: multiset<nat>)
    requires Before(c, true, b, v, h) && fs <= h && refused + out == fs
    requires ListOK(c.g, free) && multiset(free) == multiset(v.free) + refused
    ensures After(c, true, b, v, h, app, b, v.(free := free, ledger := v.ledger - |fs|), h - fs, app + out)
  {
    hide Drained, ListOK, AllIn, Stamped, AllOwn;
    var v' := v.(free := free, ledger := v.ledger - |fs|);
    var h' := h - fs;
    assert h == h' + fs;
    MoreHeld(c, v, h', fs);
    MoreFree(c, v, h', free, refused);
    assert Place(c, v', h') == Place(c, v.(free := free), h') && Lent(c, v', h') == Lent(c, v, h');
    AllOwnSum(c.g, Lent(c, v, h'), fs);
    SameBytes(c, b, Place(c, v, h) + app);
    assert |h'| == |h| - |fs|;
    StampedLess(c, b, multiset(Drained(c, v.supply)), h', fs);
    assert LedgerExact(c, true, v', h');
    assert Place(c, v', h') + (app + out) == Place(c, v, h) + app;
  }

  lemma {:induction false} GetStep(c: Config, b: bytes, v: View, h: multiset<nat>, app: multiset<nat>, n: nat)
    requires Before(c, true, b, v, h) && n <= |v.supply|
    ensures After(c, true, b, v, h, app, b, v.(supply := v.supply[n..]), h + multiset(Drained(c, v.supply[..n])), app)
  {
    var x, rest := multiset(Drained(c, v.supply[..n])), v.supply[n..];
    var v' := v.(supply := rest);
    DrainedCut(c, v.supply, n);
    assert multiset(Drained(c, v.supply)) == multiset(Drained(c, rest)) + x;
    GetAlgebra(multiset(v.free), multiset(Drained(c, rest)), multiset(Drained(c, v.returned)), h, x);
    assert Place(c, v', h + x) == Place(c, v, h) && Lent(c, v', h + x) == Lent(c, v, h);
    assert multiset(Drained(c, rest)) + (h + x) == multiset(Drained(c, v.supply)) + h;
    GetRings(c, v, h, n);
    SameBytes(c, b, Place(c, v, h) + app);
  }

  lemma {:induction false} GetRings(c: Config, v: View, h: multiset<nat>, n: nat)
    requires n <= |v.supply| && AllIn(c, v.supply) && LedgerExact(c, true, v, h)
    ensures AllIn(c, v.supply[n..])
    ensures LedgerExact(c, true, v.(supply := v.supply[n..]), h + multiset(Drained(c, v.supply[..n])))
  {
    DrainedAll(c, v.supply[..n]);
    var rest := v.supply[n..];
    forall j | 0 <= j < |rest| ensures InRegion(c, rest[j]) { assert rest[j] == v.supply[n + j]; }
  }

  lemma {:induction false} GetAlgebra(free: multiset<nat>, rest: multiset<nat>, returned: multiset<nat>,
                                      h: multiset<nat>, x: multiset<nat>)
    ensures free + rest + returned + (h + x) == free + (rest + x) + returned + h
    ensures rest + returned + (h + x) == (rest + x) + returned + h
  {
  }

  /**
   There is always room for a frame the driver frees: either the ring covers
   the depth, or only own frames are out and the ring covers the slice.
   */
  lemma {:induction false} RoomToFree(c: Config, rx: bool, b: bytes, v: View, h: multiset<nat>, f: nat)
    requires Before(c, rx, b, v, h) && f in h && c.g.count <= c.cap && AtMostOnce(Lent(c, v, h))
    ensures |v.returned| < c.cap
  {
    SmallerSize(multiset{f}, h);
    if Confined(c, rx) {
      OwnCount(c.g, Lent(c, v, h));
      DrainedAll(c, v.supply);
      DrainedAll(c, v.returned);
    }
  }

  lemma {:induction false} FreedRing(c: Config, v: View, f: nat)
    requires IsFrame(c, f) && |v.returned| < c.cap && AllIn(c, v.returned)
    ensures var v' := Enqueued(c, v, [HeaderVA(c, f)]);
            && v' == v.(returned := v'.returned) && |v'.returned| == |v.returned| + 1
            && AllIn(c, v'.returned) && Drained(c, v'.returned) == Drained(c, v.returned) + [f]
  {
    var va := HeaderVA(c, f);
    FrameUnique(f, f, c.l.frameSize);
    VARoundTrip(c, f);
    var back := Enqueued(c, v, [va]).returned;
    assert back == v.returned + [va];
    assert back[..|back| - 1] == v.returned;
  }

  lemma {:induction false} FreeStep(c: Config, rx: bool, b: bytes, v: View, h: multiset<nat>, app: multiset<nat>,
                                    f: nat)
    requires Before(c, rx, b, v, h) && f in h && IsFrame(c, f) && |v.returned| < c.cap
    ensures After(c, rx, b, v, h, app, b, Enqueued(c, v, [HeaderVA(c, f)]), h - multiset{f}, app)
  {
    hide Drained, ListOK, AllIn, Stamped, AllOwn;
    var v', x := Enqueued(c, v, [HeaderVA(c, f)]), multiset{f};
    var h' := h - x;
    FreedRing(c, v, f);
    assert h == h' + x && |h'| == |h| - 1;
    FreeAlgebra(multiset(v.free), multiset(Drained(c, v.supply)), multiset(Drained(c, v.returned)), h', x);
    assert Place(c, v', h') == Place(c, v, h) && Lent(c, v', h') == Lent(c, v, h);
    assert LedgerExact(c, rx, v', h');
    StampedLess(c, b, multiset(Drained(c, v.supply)), h', x);
    SameBytes(c, b, Place(c, v, h) + app);
  }

  lemma {:induction false} FreeAlgebra(free: multiset<nat>, supply: multiset<nat>, returned: multiset<nat>,
                                       h: multiset<nat>, x: multiset<nat>)
    ensures free + supply + (returned + x) + h == free + supply + returned + (h + x)
    ensures supply + (returned + x) + h == supply + returned + (h + x)
  {
  }

  lemma {:induction false} StampedLess(c: Config, b: bytes, d: multiset<nat>, h: multiset<nat>, x: multiset<nat>)
    requires |b| == c.regionLen && Stamped(c, b, d + (h + x))
    ensures Stamped(c, b, d + h)
  {
    forall f | f in d + h ensures IsFrame(c, f) && PoolAt(c, b, f) == c.poolVA { assert f in d + (h + x); }
  }
}
