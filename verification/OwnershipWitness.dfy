/** A run in which completing loses a frame: one queue's frame sent on another and completed there. */
module OwnershipWitness {
  import opened Words
  import opened Pool
  import opened QueueSpec
  import opened Ownership
  import opened OwnershipProofs
  import opened OwnershipRuns

  /** What it takes: two transmit queues, a frame of the first, and a descriptor in it that the second accepts. */
  ghost predicate Setting(dev: Device, s: Sys, i: nat, j: nat, d: Desc, f: nat) {
    && Initial(dev, s) && i < |dev.cs| && j < |dev.cs| && i != j && !dev.rx[i] && !dev.rx[j]
    && dev.cs[i].g.count > 0 && dev.cs[i].depth > 0 && 0 < dev.cs[j].depth <= dev.cs[j].cap
    && f == Full(dev.cs[i].g)[dev.cs[i].g.count - 1] && DescOK(dev.cs[j], d) && FramesOf(dev.cs[j], [d]) == [f]
  }

  /** The application takes the frame. */
  lemma {:induction false} First(dev: Device, s: Sys, i: nat, j: nat, d: Desc, f: nat)
    requires Setting(dev, s, i, j, d, f)
    ensures Shaped(dev, s) && Enabled(dev, s, AllocFrames(i, 1)) && Inv(dev, s)
    ensures var t := Next(dev, s, AllocFrames(i, 1));
            Inv(dev, t) && t.app == multiset{f} && t.qs[j] == s.qs[j] && t.held[j] == multiset{}
  {
    hide Inv, ExactlyOnce, Full;
    InitialInv(dev, s);
    KeepsAlloc(dev, s, i, 1);
    var v := s.qs[i];
    assert AllocCount(dev.cs[i], v, 1) == 1;
    assert Taken(v.free, 1) == [f];
    assert multiset([f]) == multiset{f} && multiset{} + multiset{f} == multiset{f};
  }

  /** And sends it on the other queue, which takes it. */
  lemma {:induction false} Second(dev: Device, s: Sys, j: nat, d: Desc, f: nat)
    requires Inv(dev, s) && j < |dev.cs| && !dev.rx[j] && 0 < dev.cs[j].depth <= dev.cs[j].cap && s.app == multiset{f}
    requires s.qs[j].ledger == 0 && !s.qs[j].closed && !s.qs[j].dead && s.qs[j].returned == []
             && s.held[j] == multiset{}
    requires DescOK(dev.cs[j], d) && FramesOf(dev.cs[j], [d]) == [f]
    ensures Shaped(dev, s) && Enabled(dev, s, Send(j, [d], 1))
    ensures var t := Next(dev, s, Send(j, [d], 1));
            && Inv(dev, t) && t.held[j] == multiset{f} && t.qs[j].returned == [] && !t.qs[j].closed
  {
    hide QInv, ExactlyOnce;
    var c, v := dev.cs[j], s.qs[j];
    assert multiset([f]) == multiset{f};
    assert Enabled(dev, s, Send(j, [d], 1));
    KeepsSend(dev, s, j, [d], 1);
    assert [d][..1] == [d];
    assert GoodPrefix(c, [d]) == 1;
    assert Offered(c, v, [d]) == 1;
    assert multiset{} + multiset{f} == multiset{f};
  }

  /** The driver is done with it. */
  lemma {:induction false} Third(dev: Device, s: Sys, j: nat, f: nat)
    requires Inv(dev, s) && j < |dev.cs| && s.held[j] == multiset{f} && s.qs[j].returned == [] && !s.qs[j].closed
    ensures Shaped(dev, s) && Enabled(dev, s, DriverFree(j, f))
    ensures var t := Next(dev, s, DriverFree(j, f)); Inv(dev, t) && Reclaim(dev.cs[j], t.qs[j], 1).1 == [f]
  {
    hide QInv, ExactlyOnce;
    FreedAtHome(dev, s, j, f);
    forall k | 0 <= k < |dev.cs|
      ensures Defined(dev.cs[k], s.qs[k])
    {
      QueueReady(dev, s, k);
    }
    KeepsFree(dev, s, j, f);
    FreeIsStep(dev, s, j, f);
    var c := dev.cs[j];
    OneFreed(c, s.qs[j], f);
  }

  lemma {:induction false} OneFreed(c: Config, v: View, f: nat)
    requires IsFrame(c, f) && v.returned == [] && !v.closed && c.cap > 0
    ensures Reclaim(c, Enqueued(c, v, [HeaderVA(c, f)]), 1).1 == [f]
  {
    hide RawConfig.Valid, Drained;
    var va := HeaderVA(c, f);
    assert [va][..1] == [va] && [] + [va] == [va];
    OneDrained(c, f, va);
  }

  lemma {:induction false} OneDrained(c: Config, f: nat, va: u64)
    requires IsFrame(c, f) && va == HeaderVA(c, f)
    ensures Drained(c, [va]) == [f]
  {
    hide Drained;
    FrameUnique(f, f, c.l.frameSize);
    VARoundTrip(c, f);
    DrainedOfOne(c, va);
  }

  lemma {:induction false} DrainedOfOne(c: Config, va: u64)
    requires InRegion(c, va)
    ensures Drained(c, [va]) == [FrameOfVA(c, va)]
  {
    assert [va][..0] == [];
  }

  /**
   Every device with two such queues has a run, of three steps, after which completing
   loses the frame.
   */
  lemma {:induction false} CompletingLoses(dev: Device, s0: Sys, i: nat, j: nat, d: Desc, f: nat)
    returns (states: seq<Sys>, actions: seq<Action>)
    requires Setting(dev, s0, i, j, d, f)
    ensures IsRun(dev, states, actions) && |states| == 4 && Shaped(dev, states[3])
    ensures var s, c := states[3], dev.cs[j];
            !ExactlyOnce(dev, Step(s, j, s.region, Complete(c, s.qs[j], 1), s.held[j], s.app))
  {
    hide QInv, ExactlyOnce, Next, Enabled;
    First(dev, s0, i, j, d, f);
    var s1 := Next(dev, s0, AllocFrames(i, 1));
    Second(dev, s1, j, d, f);
    var s2 := Next(dev, s1, Send(j, [d], 1));
    Third(dev, s2, j, f);
    var s3 := Next(dev, s2, DriverFree(j, f));
    states, actions := [s0, s1, s2, s3], [AllocFrames(i, 1), Send(j, [d], 1), DriverFree(j, f)];
    NotTheirs(dev, s0, i, j, d, f);
    assert f in multiset([f]);
    CompleteKeepsIff(dev, s3, j, 1);
  }

  lemma {:induction false} NotTheirs(dev: Device, s: Sys, i: nat, j: nat, d: Desc, f: nat)
    requires Setting(dev, s, i, j, d, f)
    ensures !dev.cs[j].g.Holds(f)
  {
    InitialInv(dev, s);
    FullOK(dev.cs[i].g);
    FullOK(dev.cs[j].g);
    assert f in Places(dev, s)[i];
    if dev.cs[j].g.Holds(f) {
      assert f in Full(dev.cs[j].g);
      assert f in Places(dev, s)[j];
      Disjoint(dev, s, i, j);
    }
  }
}
