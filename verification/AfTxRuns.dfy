/**
 Every run of one AF_PACKET transmit queue, as the methods of `AfTx.TxQueue` move
 frames: whatever the kernel takes and whatever the builder does, each of the
 queue's frames is in one place.
 */
module AfTxRuns {
  import opened Words
  import opened Pool
  import opened AfFrames
  import opened AfTxSpec
  import opened AfTx
  import Proofs = OwnershipProofs
  import Runs = OwnershipRuns

  /** Whose free list it is: a slice of frames, in either build. */
  datatype Owner = Owner(g: Geometry, checked: bool)

  type Home = h: Owner | h.g.Valid() ghost witness Small()

  ghost function Small(): (h: Owner)
    ensures h.g.Valid()
  {
    assert Pow2(0) == 1;
    Owner(Geometry(0, 0, 1), false)
  }

  /** `caller` holds whatever has been handed out and not given back, foreign frames too. */
  datatype State = State(free: seq<nat>, pending: seq<nat>, caller: multiset<nat>)

  datatype Step =
    | Alloc(n: int)
    | Transmit(fs: seq<nat>, k: nat)   // the kernel takes any prefix there is room for
    | Complete(max: int)
    | Reclaim(max: int)
    | Free(fs: seq<nat>)
    | Arrive(f: nat)                   // the caller comes by a frame of some other queue

  ghost predicate Enabled(h: Home, s: State, step: Step)
  {
    match step
    case Transmit(fs, k) => multiset(fs) <= s.caller && k <= |fs| && |s.pending| + k <= MAX_PENDING
    case Free(fs) => multiset(fs) <= s.caller
    case Arrive(f) => !h.g.Holds(f)
    case _ => true
  }

  ghost function Next(h: Home, s: State, step: Step): State
  {
    match step
    case Alloc(n) =>
      var k := AllocCount(n, |s.pending|);
      State(Kept(s.free, k), s.pending, s.caller + multiset(Taken(s.free, k)))
    case Transmit(fs, k) =>
      if k <= |fs| then State(s.free, s.pending + fs[..k], s.caller - multiset(fs[..k])) else s
    case Complete(max) =>
      var n := Handable(max, |s.pending|);
      State(PushedAll(h.g, h.checked, s.free, s.pending[..n]), s.pending[n..], s.caller)
    case Reclaim(max) =>
      var n := Handable(max, |s.pending|);
      State(s.free, s.pending[n..], s.caller + multiset(s.pending[..n]))
    case Free(fs) => State(PushedAll(h.g, h.checked, s.free, fs), s.pending, s.caller - multiset(fs))
    case Arrive(f) => s.(caller := s.caller + multiset{f})
  }

  /** How many times `f` is in a list, another list and a heap. */
  ghost function Held(free: seq<nat>, fs: seq<nat>, rest: multiset<nat>, f: nat): nat {
    multiset(free)[f] + multiset(fs)[f] + rest[f]
  }

  /** Each frame of one's own is in exactly one of them. */
  ghost predicate Once(h: Home, free: seq<nat>, fs: seq<nat>, rest: multiset<nat>) {
    forall f: nat {:trigger Held(free, fs, rest, f)} :: h.g.Holds(f) ==> Held(free, fs, rest, f) == 1
  }

  ghost predicate OwnList(h: Home, free: seq<nat>) {
    forall k {:trigger free[k]} :: 0 <= k < |free| ==> h.g.Holds(free[k])
  }

  ghost predicate Inv(h: Home, s: State) {
    OwnList(h, s.free) && |s.pending| <= MAX_PENDING && Once(h, s.free, s.pending, s.caller)
  }

  // ---------------------------------------------------------------- proofs

  /** Every frame somebody holds, the queue's own and others. */
  ghost function All(s: State): multiset<nat> { multiset(s.free) + multiset(s.pending) + s.caller }

  /** Moving frames about without making or losing any. */
  lemma {:induction false} Rebalance(h: Home, free: seq<nat>, fs: seq<nat>, rest: multiset<nat>, free1: seq<nat>,
                                     fs1: seq<nat>, rest1: multiset<nat>)
    requires Once(h, free, fs, rest)
    requires multiset(free) + multiset(fs) + rest == multiset(free1) + multiset(fs1) + rest1
    ensures Once(h, free1, fs1, rest1)
  {
    forall f: nat | h.g.Holds(f)
      ensures Held(free1, fs1, rest1, f) == 1
    {
      assert (multiset(free) + multiset(fs) + rest)[f] == Held(free, fs, rest, f);
      assert (multiset(free1) + multiset(fs1) + rest1)[f] == Held(free1, fs1, rest1, f);
    }
  }

  /** Where each frame of one's own is in one place, the free list is a proper one and no frame comes back twice. */
  lemma {:induction false} Returnable(h: Home, free: seq<nat>, fs: seq<nat>, rest: multiset<nat>)
    requires OwnList(h, free) && Once(h, free, fs, rest)
    ensures ListOK(h.g, free) && Proofs.OwnOnce(h.g, multiset(free) + multiset(fs))
  {
    hide Geometry.Holds;
    var all := multiset(free) + multiset(fs);
    forall f: nat | h.g.Holds(f)
      ensures all[f] <= 1
    {
      assert Held(free, fs, rest, f) == 1;
    }
    Proofs.SmallerOwnOnce(h.g, multiset(free), all);
    forall f | f in multiset(free)
      ensures h.g.Holds(f)
    {
    }
    Proofs.OwnOnceIs(h.g, multiset(free));
    Proofs.OwnCount(h.g, multiset(free));
  }

  /** Returning frames moves each of the queue's own from outside to the free list, and no other. */
  lemma {:induction false} PushMoves(h: Home, free: seq<nat>, fs: seq<nat>, rest: multiset<nat>)
    requires OwnList(h, free) && Once(h, free, fs, rest)
    ensures var free1 := PushedAll(h.g, h.checked, free, fs);
            && OwnList(h, free1) && Once(h, free1, [], rest)
            && multiset(free1) + Foreign(h, fs) == multiset(free) + multiset(fs)
  {
    hide Geometry.Holds, PushedAll, ListOK;
    Returnable(h, free, fs, rest);
    Proofs.PushedKeepsOwn(h.g, h.checked, free, fs);
    Proofs.OwnOnlyBound(h.g, fs);
    var own := Proofs.OwnOnly(h.g, fs);
    forall f: nat | h.g.Holds(f)
      ensures Held(free + own, [], rest, f) == 1
    {
      assert Held(free, fs, rest, f) == 1;
      Runs.OwnAndForeign(h.g, fs, f);
    }
  }

  /** The frames among `fs` that are not the queue's. */
  ghost function Foreign(h: Home, fs: seq<nat>): multiset<nat> {
    multiset(fs) - multiset(Proofs.OwnOnly(h.g, fs))
  }

  lemma {:induction false} NoneForeign(h: Home, fs: seq<nat>)
    ensures Foreign(h, fs) == multiset{} <==> forall f :: f in fs ==> h.g.Holds(f)
  {
    hide Geometry.Holds;
    Proofs.OwnOnlyBound(h.g, fs);
    if forall f :: f in fs ==> h.g.Holds(f) {
      Proofs.AllOwnKept(h.g, fs);
    } else {
      var f :| f in fs && !h.g.Holds(f);
      Runs.OwnAndForeign(h.g, fs, f);
      assert Foreign(h, fs)[f] > 0;
    }
  }

  lemma {:induction false} Cut(s: seq<nat>, n: nat)
    requires n <= |s|
    ensures multiset(s) == multiset(s[..n]) + multiset(s[n..])
  {
    assert s == s[..n] + s[n..];
  }

  /** What leaves one heap and joins another leaves the sum as it was. */
  lemma {:induction false} Moved(a: multiset<nat>, b: multiset<nat>, c: multiset<nat>, x: multiset<nat>)
    requires x <= c
    ensures a + b + c == a + (b + x) + (c - x)
    ensures a + b + c == a + x + (b + (c - x))
  {
  }

  lemma {:induction false} Regrouped(a: multiset<nat>, x: multiset<nat>, y: multiset<nat>, c: multiset<nat>)
    ensures (x + y) + a + c == x + a + (c + y)
    ensures a + (x + y) + c == a + x + (y + c)
    ensures a + (x + y) + c == a + y + (c + x)
    ensures a + multiset{} + (y + c) == a + y + c
  {
  }

  lemma {:induction false} AllocKeeps(h: Home, s: State, n: int)
    requires Inv(h, s)
    ensures Inv(h, Next(h, s, Alloc(n))) && All(Next(h, s, Alloc(n))) == All(s)
  {
    var t, k := Next(h, s, Alloc(n)), |s.free| - Grant(s.free, AllocCount(n, |s.pending|));
    Cut(s.free, k);
    Regrouped(multiset(s.pending), multiset(s.free[..k]), multiset(s.free[k..]), s.caller);
    Rebalance(h, s.free, s.pending, s.caller, t.free, t.pending, t.caller);
  }

  lemma {:induction false} TransmitKeeps(h: Home, s: State, fs: seq<nat>, k: nat)
    requires Inv(h, s) && Enabled(h, s, Transmit(fs, k))
    ensures Inv(h, Next(h, s, Transmit(fs, k))) && All(Next(h, s, Transmit(fs, k))) == All(s)
  {
    var t := Next(h, s, Transmit(fs, k));
    Cut(fs, k);
    assert multiset(fs[..k]) <= s.caller;
    Moved(multiset(s.free), multiset(s.pending), s.caller, multiset(fs[..k]));
    Rebalance(h, s.free, s.pending, s.caller, t.free, t.pending, t.caller);
  }

  lemma {:induction false} ReclaimKeeps(h: Home, s: State, max: int)
    requires Inv(h, s)
    ensures Inv(h, Next(h, s, Reclaim(max))) && All(Next(h, s, Reclaim(max))) == All(s)
  {
    var t, n := Next(h, s, Reclaim(max)), Handable(max, |s.pending|);
    Cut(s.pending, n);
    Regrouped(multiset(s.free), multiset(s.pending[..n]), multiset(s.pending[n..]), s.caller);
    Rebalance(h, s.free, s.pending, s.caller, t.free, t.pending, t.caller);
  }

  lemma {:induction false} CompleteKeeps(h: Home, s: State, max: int)
    requires Inv(h, s)
    ensures Inv(h, Next(h, s, Complete(max)))
    ensures All(Next(h, s, Complete(max))) + Foreign(h, s.pending[..Handable(max, |s.pending|)]) == All(s)
  {
    var t, n := Next(h, s, Complete(max)), Handable(max, |s.pending|);
    var back, rest := s.pending[..n], multiset(s.pending[n..]) + s.caller;
    Cut(s.pending, n);
    Regrouped(multiset(s.free), multiset(back), multiset(s.pending[n..]), s.caller);
    Rebalance(h, s.free, s.pending, s.caller, s.free, back, rest);
    PushMoves(h, s.free, back, rest);
    Regrouped(multiset(t.free), multiset{}, multiset(t.pending), s.caller);
    Rebalance(h, t.free, [], rest, t.free, t.pending, t.caller);
  }

  lemma {:induction false} FreeKeeps(h: Home, s: State, fs: seq<nat>)
    requires Inv(h, s) && Enabled(h, s, Free(fs))
    ensures Inv(h, Next(h, s, Free(fs))) && All(Next(h, s, Free(fs))) + Foreign(h, fs) == All(s)
  {
    var t, rest := Next(h, s, Free(fs)), multiset(s.pending) + (s.caller - multiset(fs));
    Moved(multiset(s.free), multiset(s.pending), s.caller, multiset(fs));
    Rebalance(h, s.free, s.pending, s.caller, s.free, fs, rest);
    PushMoves(h, s.free, fs, rest);
    Regrouped(multiset(t.free), multiset{}, multiset(t.pending), t.caller);
    Rebalance(h, t.free, [], rest, t.free, t.pending, t.caller);
  }

  lemma {:induction false} StepKeeps(h: Home, s: State, step: Step)
    requires Inv(h, s) && Enabled(h, s, step)
    ensures Inv(h, Next(h, s, step))
  {
    match step
    case Alloc(n) => AllocKeeps(h, s, n);
    case Transmit(fs, k) => TransmitKeeps(h, s, fs, k);
    case Reclaim(max) => ReclaimKeeps(h, s, max);
    case Complete(max) => CompleteKeeps(h, s, max);
    case Free(fs) => FreeKeeps(h, s, fs);
    case Arrive(x) => ArriveKeeps(h, s, x);
  }

  lemma {:induction false} ArriveKeeps(h: Home, s: State, x: nat)
    requires Inv(h, s) && Enabled(h, s, Arrive(x))
    ensures Inv(h, Next(h, s, Arrive(x))) && All(Next(h, s, Arrive(x))) == All(s) + multiset{x}
  {
    forall f: nat | h.g.Holds(f)
      ensures Held(s.free, s.pending, s.caller + multiset{x}, f) == 1
    {
      assert Held(s.free, s.pending, s.caller, f) == 1;
    }
  }

  ghost predicate IsRun(h: Home, states: seq<State>, steps: seq<Step>)
  {
    && |states| == |steps| + 1 && states[0].pending == [] && states[0].caller == multiset{}
    && NoDup(states[0].free) && (forall f: nat :: f in states[0].free <==> h.g.Holds(f))
    && forall k {:trigger steps[k]} :: 0 <= k < |steps| ==>
         Enabled(h, states[k], steps[k]) && states[k + 1] == Next(h, states[k], steps[k])
  }

  /**
   Over every run from the queue as it is opened: each of its frames is in exactly
   one of the free list, the pending list and the caller's hands, and the pending
   list never exceeds its bound.
   */
  lemma {:induction false} FramesInOnePlace(h: Home, states: seq<State>, steps: seq<Step>, k: nat)
    requires IsRun(h, states, steps) && k < |states|
    ensures Inv(h, states[k])
  {
    if k == 0 {
      forall f: nat | h.g.Holds(f)
        ensures Held(states[0].free, [], multiset{}, f) == 1
      {
        NoDupCount(states[0].free, f);
      }
    } else {
      FramesInOnePlace(h, states, steps, k - 1);
      assert Enabled(h, states[k - 1], steps[k - 1]);
      StepKeeps(h, states[k - 1], steps[k - 1]);
    }
  }

  /** In particular from the queue as it is opened, for either build of the free list. */
  lemma {:induction false} OpenedQueueRuns(h: Home, states: seq<State>, steps: seq<Step>, k: nat)
    requires IsRun(h, states, steps) && states[0].free == Full(h.g) && k < |states|
    ensures |states[k].pending| <= MAX_PENDING
    ensures forall f: nat :: h.g.Holds(f) ==> Held(states[k].free, states[k].pending, states[k].caller, f) == 1
  {
    FramesInOnePlace(h, states, steps, k);
  }

  // ------------------------------------------------------- frames from elsewhere

  /** The frames a step offers to the free list. */
  ghost function Returned(s: State, step: Step): seq<nat> {
    match step
    case Complete(max) => s.pending[..Handable(max, |s.pending|)]
    case Free(fs) => fs
    case _ => []
  }

  ghost function Arrived(step: Step): multiset<nat> {
    if step.Arrive? then multiset{step.f} else multiset{}
  }

  /** A step loses the foreign frames it offers to the free list, and nothing else. */
  lemma {:induction false} StepConserves(h: Home, s: State, step: Step)
    requires Inv(h, s) && Enabled(h, s, step)
    ensures All(Next(h, s, step)) + Foreign(h, Returned(s, step)) == All(s) + Arrived(step)
  {
    hide Geometry.Holds, PushedAll, Next, Enabled, Inv, Foreign, All;
    NoneForeign(h, []);
    match step
    case Alloc(n) => AllocKeeps(h, s, n);
    case Transmit(fs, k) => TransmitKeeps(h, s, fs, k);
    case Reclaim(max) => ReclaimKeeps(h, s, max);
    case Complete(max) => CompleteKeeps(h, s, max);
    case Free(fs) => FreeKeeps(h, s, fs);
    case Arrive(x) => ArriveKeeps(h, s, x);
  }

  /** So a step keeps every frame there is exactly when all it offers to the free list are the queue's own. */
  lemma {:induction false} StepKeepsAllIff(h: Home, s: State, step: Step)
    requires Inv(h, s) && Enabled(h, s, step)
    ensures All(Next(h, s, step)) == All(s) + Arrived(step) <==> forall f :: f in Returned(s, step) ==> h.g.Holds(f)
  {
    hide Geometry.Holds, Inv, Enabled, Next, Foreign, All;
    StepConserves(h, s, step);
    NoneForeign(h, Returned(s, step));
    var lost, now := Foreign(h, Returned(s, step)), All(Next(h, s, step));
    if now == All(s) + Arrived(step) {
      NothingAdded(now, lost);
    }
  }

  lemma {:induction false} NothingAdded<T>(a: multiset<T>, b: multiset<T>)
    requires a + b == a
    ensures b == multiset{}
  {
    forall x: T
      ensures b[x] == 0
    {
      assert (a + b)[x] == a[x] + b[x];
    }
  }

  /** All that steps `0..k` of a run offered in vain, and all that came from elsewhere. */
  ghost function LostBy(h: Home, states: seq<State>, steps: seq<Step>, k: nat): multiset<nat>
    requires k <= |steps| < |states|
  {
    if k == 0 then multiset{}
    else LostBy(h, states, steps, k - 1) + Foreign(h, Returned(states[k - 1], steps[k - 1]))
  }

  ghost function CameBy(steps: seq<Step>, k: nat): multiset<nat>
    requires k <= |steps|
  {
    if k == 0 then multiset{} else CameBy(steps, k - 1) + Arrived(steps[k - 1])
  }

  /** Over every run: what is held and what was lost is what there was and what arrived. */
  lemma {:induction false} RunConserves(h: Home, states: seq<State>, steps: seq<Step>, k: nat)
    requires IsRun(h, states, steps) && k <= |steps|
    ensures All(states[k]) + LostBy(h, states, steps, k) == multiset(states[0].free) + CameBy(steps, k)
  {
    hide Geometry.Holds, Inv, Foreign, Returned, Enabled, Next;
    if k > 0 {
      RunConserves(h, states, steps, k - 1);
      FramesInOnePlace(h, states, steps, k - 1);
      assert Enabled(h, states[k - 1], steps[k - 1]) && states[k] == Next(h, states[k - 1], steps[k - 1]);
      StepConserves(h, states[k - 1], steps[k - 1]);
      hide All, LostBy, CameBy;
      AddStep(All(states[k - 1]), All(states[k]), LostBy(h, states, steps, k - 1),
              Foreign(h, Returned(states[k - 1], steps[k - 1])), multiset(states[0].free), CameBy(steps, k - 1),
              Arrived(steps[k - 1]));
    }
  }

  lemma {:induction false} AddStep(a: multiset<nat>, b: multiset<nat>, lost: multiset<nat>, l: multiset<nat>,
                                   was: multiset<nat>, came: multiset<nat>, c: multiset<nat>)
    requires a + lost == was + came && b + l == a + c
    ensures b + (lost + l) == was + (came + c)
  {
    assert b + (lost + l) == (b + l) + lost == (a + c) + lost == (a + lost) + c;
  }

  /** A frame of another queue, sent and completed here, ends up nowhere. */
  lemma {:induction false} ForeignIsLost(h: Home, f: nat) returns (states: seq<State>)
    requires !h.g.Holds(f)
    ensures IsRun(h, states, [Arrive(f), Transmit([f], 1), Complete(1)])
    ensures states[0].free == Full(h.g) && f in All(states[1]) && f !in All(states[3])
  {
    hide Geometry.Holds;
    FullOK(h.g);
    var s0 := State(Full(h.g), [], multiset{});
    var s1 := State(Full(h.g), [], multiset{f});
    var s2 := State(Full(h.g), [f], multiset{});
    states := [s0, s1, s2, s0];
    var steps := [Arrive(f), Transmit([f], 1), Complete(1)];
    assert Next(h, s0, Arrive(f)) == s1;
    assert multiset([f]) == multiset{f} && [f][..1] == [f];
    assert Next(h, s1, Transmit([f], 1)) == s2;
    assert [f][1..] == [] && [f][..0] == [];
    Proofs.NotAccepted(h.g, h.checked, Full(h.g), f);
    assert PushedAll(h.g, h.checked, Full(h.g), [f]) == Full(h.g);
    assert Next(h, s2, Complete(1)) == s0;
  }
}
