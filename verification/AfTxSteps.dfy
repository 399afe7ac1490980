/**
 The methods of an AF_PACKET transmit queue are the steps of its machine: each call
 takes the queue from one state of `AfTxRuns` to the next, and the call that builds
 and sends in one go is a path of five.
 */
module AfTxSteps {
  import opened Words
  import opened Bytes
  import opened Pool
  import opened Offloads
  import opened AfFrames
  import opened AfTxSpec
  import opened AfTx
  import opened AfKernel
  import opened AfTxRuns
  import QueueSpec

  /** The queue is in state `s`, as far as it can tell. */
  ghost predicate At(q: TxQueue, s: State)
    reads q`free, q`pending
  {
    && IsPow2(q.g.frameSize) && q.g.frameSize >= 2 * HEADROOM && s.free == q.free
       && s.pending == FramesOf(q.g, q.pending)
  }

  ghost function HomeFor(q: TxQueue): Home
    requires q.g.Valid()
  {
    Owner(q.g, q.checked)
  }

  /** Steps that may be taken one after the other, and where they lead. */
  ghost predicate Path(h: Home, s: State, steps: seq<Step>, t: State)
    decreases |steps|
  {
    if steps == [] then s == t else Enabled(h, s, steps[0]) && Path(h, Next(h, s, steps[0]), steps[1..], t)
  }

  lemma {:induction false} PathKeeps(h: Home, s: State, steps: seq<Step>, t: State)
    requires Inv(h, s) && Path(h, s, steps, t)
    ensures Inv(h, t)
    decreases |steps|
  {
    hide Inv, Enabled, Next;
    if steps != [] {
      StepKeeps(h, s, steps[0]);
      PathKeeps(h, Next(h, s, steps[0]), steps[1..], t);
    }
  }

  lemma {:induction false} PathJoin(h: Home, s: State, a: seq<Step>, t: State, b: seq<Step>, u: State)
    requires Path(h, s, a, t) && Path(h, t, b, u)
    ensures Path(h, s, a + b, u)
    decreases |a|
  {
    hide Enabled, Next;
    if a == [] {
      assert a + b == b;
    } else {
      PathJoin(h, Next(h, s, a[0]), a[1..], t, b, u);
      assert (a + b)[1..] == a[1..] + b;
    }
  }

  lemma {:induction false} OneStep(h: Home, s: State, step: Step)
    requires Enabled(h, s, step)
    ensures Path(h, s, [step], Next(h, s, step))
  {
    hide Enabled, Next;
    assert [step][1..] == [];
  }

  // ------------------------------------------------------- descriptors and frames

  /** The frame of a descriptor handed out is the frame it was made from. */
  lemma {:induction false} HandedBack(g: Geometry, frames: seq<nat>)
    requires g.Valid() && g.frameSize >= 2 * HEADROOM && forall k {:trigger frames[k]} :: 0 <= k < |frames| ==>
             g.Holds(frames[k])
    ensures FramesOf(g, Handed(frames)) == frames
  {
    forall i | 0 <= i < |frames|
      ensures FrameStart(frames[i] + HEADROOM, g.frameSize) == frames[i]
    {
      FrameUnique(frames[i] + HEADROOM, frames[i], g.frameSize);
    }
  }

  lemma {:induction false} TakenOwn(g: Geometry, free: seq<nat>, n: int)
    requires g.frameSize > 0 && ListOK(g, free)
    ensures forall k {:trigger Taken(free, n)[k]} :: 0 <= k < |Taken(free, n)| ==> g.Holds(Taken(free, n)[k])
  {
  }

  lemma {:induction false} FramesAppend(g: Geometry, a: seq<Desc>, b: seq<Desc>)
    requires IsPow2(g.frameSize)
    ensures FramesOf(g, a + b) == FramesOf(g, a) + FramesOf(g, b)
  {
  }

  lemma {:induction false} FramesSlice(g: Geometry, ds: seq<Desc>, lo: nat, hi: nat)
    requires IsPow2(g.frameSize) && lo <= hi <= |ds|
    ensures FramesOf(g, ds[lo..hi]) == FramesOf(g, ds)[lo..hi]
  {
  }

  // -------------------------------------------------------------- one call

  method Alloc(q: TxQueue, n: int, ghost s: State) returns (ds: seq<Desc>, ghost t: State)
    requires q.Valid() && At(q, s)
    modifies q`free
    ensures q.Valid() && At(q, t) && t == (if q.closed then s else Next(HomeFor(q), s, Step.Alloc(n)))
    ensures t.caller == s.caller + multiset(FramesOf(q.g, ds))
  {
    hide TxQueue.Sendable, SpanInside, ListOK;
    ghost var k, free := AllocCount(n, |q.pending|), q.free;
    ds := q.Alloc(n);
    t := s;
    if !q.closed {
      TakenOwn(q.g, free, k);
      HandedBack(q.g, Taken(free, k));
      t := Next(HomeFor(q), s, Step.Alloc(n));
    } else {
      assert FramesOf(q.g, ds) == [];
    }
  }

  method Transmit(q: TxQueue, ds: seq<Desc>, offs: Option<seq<Offload>>, kernel: Kernel, ghost s: State)
    returns (total: nat, err: Error, ghost t: State)
    requires q.Valid() && At(q, s) && (offs.Some? ==> |offs.value| == |ds|) && multiset(FramesOf(q.g, ds)) <= s.caller
    modifies q`msgs, q`iovs, q`iovs2, q`hdrs, q`chainIovs, q`gen, q`msgsChained, q`pending
    modifies q`wire, q`sysCalls, q`ringFull, q`drops, q`rejected
    ensures q.Valid() && At(q, t) && total <= |ds|
    ensures Enabled(HomeFor(q), s, Step.Transmit(FramesOf(q.g, ds), total))
    ensures t == Next(HomeFor(q), s, Step.Transmit(FramesOf(q.g, ds), total))
  {
    hide TxQueue.Scratch, SpanInside, ListOK, PacketsIn, OnWireAll, AllPktsGood, Unfit, NoRoom, Stopped;
    hide Boundary, Offers, TalkAll;
    ghost var pending := q.pending;
    ghost var short, bad;
    total, err, short, bad := q.Transmit(ds, offs, kernel);
    FramesAppend(q.g, pending, ds[0..total]);
    FramesSlice(q.g, ds, 0, total);
    t := Next(HomeFor(q), s, Step.Transmit(FramesOf(q.g, ds), total));
  }

  method Complete(q: TxQueue, max: int, ghost s: State) returns (n: nat, ghost t: State)
    requires q.Valid() && At(q, s)
    modifies q`free, q`pending
    ensures q.Valid() && At(q, t) && t == Next(HomeFor(q), s, Step.Complete(max)) && t.caller == s.caller
  {
    hide TxQueue.Sendable, SpanInside, ListOK, GiveAll, PushedAll;
    ghost var free, pending := q.free, q.pending;
    n := q.Complete(max);
    CompleteIs(q.g, q.checked, free, pending, max);
    t := Next(HomeFor(q), s, Step.Complete(max));
  }

  lemma {:induction false} CompleteIs(g: Geometry, checked: bool, free: seq<nat>, pending: seq<Desc>, max: int)
    requires IsPow2(g.frameSize)
    ensures var n, fs := Handable(max, |pending|), FramesOf(g, pending);
            && GiveAll(g, checked, free, pending[..n]) == PushedAll(g, checked, free, fs[..n])
            && FramesOf(g, pending[n..]) == fs[n..]
  {
    hide PushedAll;
    var n := Handable(max, |pending|);
    assert FramesOf(g, pending[..n]) == FramesOf(g, pending)[..n];
  }

  method Reclaim(q: TxQueue, max: int, dst: seq<Desc>, ghost s: State) returns (out: seq<Desc>, ghost t: State)
    requires q.Valid() && At(q, s)
    modifies q`pending
    ensures q.Valid() && At(q, t) && t == Next(HomeFor(q), s, Step.Reclaim(max))
    ensures dst <= out && t.caller == s.caller + multiset(FramesOf(q.g, out[|dst|..]))
  {
    hide TxQueue.Scratch, SpanInside, ListOK;
    ghost var pending := q.pending;
    ghost var n := Handable(max, |pending|);
    out := q.Reclaim(max, dst);
    assert out[|dst|..] == pending[..n];
    assert FramesOf(q.g, pending[..n]) == FramesOf(q.g, pending)[..n];
    assert FramesOf(q.g, pending[n..]) == FramesOf(q.g, pending)[n..];
    t := Next(HomeFor(q), s, Step.Reclaim(max));
  }

  method Free(q: TxQueue, ds: seq<Desc>, ghost s: State) returns (ghost t: State)
    requires q.Valid() && At(q, s) && multiset(FramesOf(q.g, ds)) <= s.caller
    modifies q`free
    ensures q.Valid() && At(q, t) && t == Next(HomeFor(q), s, Step.Free(FramesOf(q.g, ds)))
  {
    hide TxQueue.Sendable, SpanInside, ListOK, PushedAll;
    q.Free(ds);
    t := Next(HomeFor(q), s, Step.Free(FramesOf(q.g, ds)));
  }

  // ------------------------------------------------- building and sending in one call

  /** What is given back last, first, and in between is all that was taken. */
  lemma {:induction false} ThreeParts(c: multiset<nat>, fs: seq<nat>, sent: nat, n: nat)
    requires sent <= n <= |fs|
    ensures var all := c + multiset(fs);
            && multiset(fs[n..]) <= all && multiset(fs[..n]) <= all - multiset(fs[n..])
            && multiset(fs[sent..n]) <= all - multiset(fs[n..]) - multiset(fs[..n][..sent])
            && all - multiset(fs[n..]) - multiset(fs[..n][..sent]) - multiset(fs[sent..n]) == c
  {
    assert fs == fs[..sent] + fs[sent..n] + fs[n..];
    assert fs[..n] == fs[..sent] + fs[sent..n] && fs[..n][..sent] == fs[..sent];
  }

  /** The last three steps, from the state in which the frames `fs` are the caller's. */
  lemma {:induction false} LastThree(h: Home, s: State, c: multiset<nat>, fs: seq<nat>, n: nat, sent: nat, t: State)
    requires sent <= n <= |fs| && s.caller == c + multiset(fs) && |s.pending| + sent <= MAX_PENDING
    requires t == State(PushedAll(h.g, h.checked, PushedAll(h.g, h.checked, s.free, fs[n..]), fs[sent..n]),
             s.pending + fs[..sent], c)
    ensures Path(h, s, [Step.Free(fs[n..]), Step.Transmit(fs[..n], sent), Step.Free(fs[sent..n])], t)
  {
    hide PushedAll, Path, Next, Enabled;
    var a, b, d := Step.Free(fs[n..]), Step.Transmit(fs[..n], sent), Step.Free(fs[sent..n]);
    ThreeNexts(h, s, c, fs, n, sent, t);
    ListOf(a, b, d);
    OneStep(h, Next(h, Next(h, s, a), b), d);
    StepFirst(h, Next(h, s, a), b, [d], t);
    StepFirst(h, s, a, [b, d], t);
  }

  lemma {:induction false} ThreeNexts(h: Home, s: State, c: multiset<nat>, fs: seq<nat>, n: nat, sent: nat, t: State)
    requires sent <= n <= |fs| && s.caller == c + multiset(fs) && |s.pending| + sent <= MAX_PENDING
    requires t == State(PushedAll(h.g, h.checked, PushedAll(h.g, h.checked, s.free, fs[n..]), fs[sent..n]),
             s.pending + fs[..sent], c)
    ensures var a, b, d := Step.Free(fs[n..]), Step.Transmit(fs[..n], sent), Step.Free(fs[sent..n]);
            && Enabled(h, s, a) && Enabled(h, Next(h, s, a), b) && Enabled(h, Next(h, Next(h, s, a), b), d)
            && t == Next(h, Next(h, Next(h, s, a), b), d)
  {
    hide PushedAll;
    ThreeParts(c, fs, sent, n);
    assert fs[..n][..sent] == fs[..sent];
  }

  lemma {:induction false} ListOf<T>(a: T, b: T, c: T)
    ensures [b] + [c] == [b, c] && [a] + [b, c] == [a, b, c]
  {
  }

  lemma {:induction false} StepFirst(h: Home, s: State, step: Step, rest: seq<Step>, t: State)
    requires Enabled(h, s, step) && Path(h, Next(h, s, step), rest, t)
    ensures Path(h, s, [step] + rest, t)
  {
    hide Enabled, Next;
    assert ([step] + rest)[1..] == rest;
  }

  lemma {:induction false} SameFrames(g: Geometry, a: seq<Desc>, b: seq<Desc>)
    requires IsPow2(g.frameSize) && |a| == |b| && forall i {:trigger a[i]} :: 0 <= i < |a| ==> a[i].addr == b[i].addr
    ensures FramesOf(g, a) == FramesOf(g, b)
  {
  }

  /** What such a call gives back, in terms of frames. */
  lemma {:induction false} GivenBack(g: Geometry, checked: bool, free: seq<nat>, ds: seq<Desc>, n: nat, sent: nat)
    requires IsPow2(g.frameSize) && sent <= n <= |ds|
    ensures var fs := FramesOf(g, ds);
            && GiveAll(g, checked, free, ds[n..] + ds[sent..n])
            == PushedAll(g, checked, PushedAll(g, checked, free, fs[n..]), fs[sent..n])
            && GiveAll(g, checked, free, ds) == PushedAll(g, checked, free, fs)
  {
    hide PushedAll;
    var fs := FramesOf(g, ds);
    FramesAppend(g, ds[n..], ds[sent..n]);
    FramesSlice(g, ds, n, |ds|);
    FramesSlice(g, ds, sent, n);
    assert ds[n..|ds|] == ds[n..] && fs[n..|fs|] == fs[n..];
    PushedJoin(g, checked, free, fs[n..], fs[sent..n]);
  }

  lemma {:induction false} PendingAfter(g: Geometry, pending: seq<Desc>, ds: seq<Desc>, n: nat, sent: nat)
    requires IsPow2(g.frameSize) && sent <= n <= |ds|
    ensures FramesOf(g, pending + ds[..n][0..sent]) == FramesOf(g, pending) + FramesOf(g, ds)[..sent]
  {
    assert ds[..n][0..sent] == ds[..sent];
    FramesAppend(g, pending, ds[..sent]);
    FramesSlice(g, ds, 0, sent);
  }

  /** What `Cycled` says of the lists. */
  lemma {:induction false} CycledLists(q: TxQueue, was: Before, blank: seq<Desc>, build: nat -> Built, kernel: Kernel,
                                       sent: nat, err: Error, ds: seq<Desc>, n: nat)
    requires IsPow2(q.g.frameSize) && q.Cycled(was, blank, build, kernel, sent, err, ds, n)
    ensures sent <= n <= |ds| && FramesOf(q.g, ds) == FramesOf(q.g, blank) && (err == BadLength ==> sent == 0)
    ensures q.pending == was.pending + ds[..n][0..sent]
    ensures q.free == GiveAll(q.g, q.checked, was.free, if err == BadLength then ds else ds[n..] + ds[sent..n])
  {
    hide FramesOf, GiveAll, PacketsIn, OnWireAll, AllPktsGood, TxQueue.Apart, TxQueue.ShowsAll, TxQueue.HandedOver;
    hide TxQueue.WroteAll, TxQueue.Filled;
    SameFrames(q.g, ds, blank);
  }

  /** What such a call leaves, from the state in which it has its descriptors. */
  lemma {:induction false} CycleLast(q: TxQueue, was: Before, s: State, c: multiset<nat>, blank: seq<Desc>,
                                     build: nat -> Built, kernel: Kernel, sent: nat, err: Error, ds: seq<Desc>, n: nat)
    requires q.Valid() && s.pending == FramesOf(q.g, was.pending) && s.free == was.free
    requires s.caller == c + multiset(FramesOf(q.g, blank)) && q.Cycled(was, blank, build, kernel, sent, err, ds, n)
    ensures sent <= n <= |ds|
    ensures Path(HomeFor(q), s, LastSteps(q, sent, err, ds, n), State(q.free, FramesOf(q.g, q.pending), c))
  {
    hide TxQueue.Scratch, SpanInside, ListOK, GiveAll, PushedAll, TxQueue.Cycled, Path, FramesOf;
    CycledLists(q, was, blank, build, kernel, sent, err, ds, n);
    var fs, h := FramesOf(q.g, ds), HomeFor(q);
    var t := State(q.free, FramesOf(q.g, q.pending), c);
    GivenBack(q.g, q.checked, s.free, ds, n, sent);
    PendingAfter(q.g, was.pending, ds, n, sent);
    if err == BadLength {
      assert c + multiset(fs) - multiset(fs) == c && s.pending + fs[..0] == s.pending;
      assert t == Next(h, s, Step.Free(fs));
      OneStep(h, s, Step.Free(fs));
    } else {
      LastThree(h, s, c, fs, n, sent, t);
    }
  }

  /** The steps after the frames were taken. */
  ghost function LastSteps(q: TxQueue, sent: nat, err: Error, ds: seq<Desc>, n: nat): seq<Step>
    requires IsPow2(q.g.frameSize) && sent <= n <= |ds|
  {
    var fs := FramesOf(q.g, ds);
    if err == BadLength then [Step.Free(fs)]
    else [Step.Free(fs[n..]), Step.Transmit(fs[..n], sent), Step.Free(fs[sent..n])]
  }

  /** The free list after what was sent was taken back is a proper one. */
  ghost predicate FreeOK(g: Geometry, checked: bool, was: Before, count: int)
    requires IsPow2(g.frameSize)
  {
    ListOK(g, GiveAll(g, checked, was.free, was.pending[..Handable(count + |was.pending|, |was.pending|)]))
  }

  /** The first two steps: what was sent is taken back, and frames are taken. */
  lemma {:induction false} FirstTwo(g: Geometry, checked: bool, was: Before, c: multiset<nat>, count: int)
    requires g.Valid() && g.frameSize >= 2 * HEADROOM && FreeOK(g, checked, was, count)
    ensures var h, s := Owner(g, checked), State(was.free, FramesOf(g, was.pending), c);
            var s1, ready := Next(h, s, Step.Complete(count + |was.pending|)), Ready(g, checked, was, count);
            && s1.free == GiveAll(g, checked, was.free, was.pending[..Handable(count + |was.pending|, |was.pending|)])
            && s1.pending == FramesOf(g, ready.pending) && s1.caller == c
            && Next(h, s1, Step.Alloc(count))
            == State(ready.free, FramesOf(g, ready.pending), c + multiset(FramesOf(g, Blank(g, checked, was, count))))
  {
    hide GiveAll, PushedAll, ListOK;
    var k := Handable(count + |was.pending|, |was.pending|);
    var free1, m := GiveAll(g, checked, was.free, was.pending[..k]), AllocCount(count, |was.pending[k..]|);
    CompleteIs(g, checked, was.free, was.pending, count + |was.pending|);
    TakenOwn(g, free1, m);
    HandedBack(g, Taken(free1, m));
  }

  lemma {:induction false} PushedOK(g: Geometry, checked: bool, free: seq<nat>, fs: seq<nat>)
    requires g.Valid() && ListOK(g, free)
    ensures ListOK(g, PushedAll(g, checked, free, fs))
    decreases |fs|
  {
    if fs != [] {
      PushedOK(g, checked, free, fs[..|fs| - 1]);
    }
  }

  lemma {:induction false} GivenOK(g: Geometry, checked: bool, free: seq<nat>, ds: seq<Desc>)
    requires g.Valid() && ListOK(g, free)
    ensures ListOK(g, GiveAll(g, checked, free, ds))
  {
    PushedOK(g, checked, free, FramesOf(g, ds));
  }

  /** Where a call that got frames goes, from where it began. */
  lemma {:induction false} WholeCycle(q: TxQueue, was: Before, c: multiset<nat>, count: int, build: nat -> Built,
                                      kernel: Kernel,
                                      sent: nat, err: Error, ds: seq<Desc>, n: nat) returns (steps: seq<Step>)
    requires q.Valid() && q.g.frameSize >= 2 * HEADROOM
    requires FreeOK(q.g, q.checked, was, count)
    requires q.Cycled(Ready(q.g, q.checked, was, count), Blank(q.g, q.checked, was, count), build, kernel, sent, err,
             ds, n)
    requires sent <= n <= |ds|
    ensures steps == [Step.Complete(count + |was.pending|), Step.Alloc(count)] + LastSteps(q, sent, err, ds, n)
    ensures Path(HomeFor(q), State(was.free, FramesOf(q.g, was.pending), c), steps,
            State(q.free, FramesOf(q.g, q.pending), c))
  {
    hide TxQueue.Sendable, SpanInside, ListOK, GiveAll, PushedAll, TxQueue.Cycled, Path, FramesOf, Handed, LastSteps;
    hide Ready, Blank, FreeOK, Next;
    NoGuards(HomeFor(q), count);
    NoGuards(HomeFor(q), count + |was.pending|);
    var h, s, all := HomeFor(q), State(was.free, FramesOf(q.g, was.pending), c), count + |was.pending|;
    FirstTwo(q.g, q.checked, was, c, count);
    var s1 := Next(h, s, Step.Complete(all));
    var s2 := Next(h, s1, Step.Alloc(count));
    var ready, blank := Ready(q.g, q.checked, was, count), Blank(q.g, q.checked, was, count);
    CycleLast(q, ready, s2, c, blank, build, kernel, sent, err, ds, n);
    var last := LastSteps(q, sent, err, ds, n);
    var t := State(q.free, FramesOf(q.g, q.pending), c);
    StepFirst(h, s1, Step.Alloc(count), last, t);
    StepFirst(h, s, Step.Complete(all), [Step.Alloc(count)] + last, t);
    steps := [Step.Complete(all)] + ([Step.Alloc(count)] + last);
  }

  /** Frames of one's own list, each there once, do not overlap. */
  lemma {:induction false} HandedApart(q: TxQueue, frames: seq<nat>)
    requires q.g.Valid() && q.g.frameSize >= 2 * HEADROOM && NoDup(frames)
    requires forall a: nat {:trigger q.span(a)} :: q.span(a) == Writable(q.region.Length, q.g.frameSize, a)
    requires forall k {:trigger frames[k]} :: 0 <= k < |frames| ==> q.g.Holds(frames[k])
    ensures q.Apart(Handed(frames))
  {
    var ds := Handed(frames);
    forall i, j | 0 <= i < j < |ds|
      ensures ds[i].addr + q.span(ds[i].addr) <= ds[j].addr || ds[j].addr + q.span(ds[j].addr) <= ds[i].addr
    {
      InOneFrame(q, frames[i]);
      InOneFrame(q, frames[j]);
      if frames[i] < frames[j] {
        QueueSpec.MultipleGap(frames[i], frames[j], q.g.frameSize);
      } else {
        QueueSpec.MultipleGap(frames[j], frames[i], q.g.frameSize);
      }
    }
  }

  lemma {:induction false} InOneFrame(q: TxQueue, f: nat)
    requires q.g.Valid() && q.g.frameSize >= 2 * HEADROOM && q.g.Holds(f)
    requires q.span(f + HEADROOM) == Writable(q.region.Length, q.g.frameSize, f + HEADROOM)
    ensures f + HEADROOM + q.span(f + HEADROOM) <= f + q.g.frameSize
  {
    FrameUnique(f + HEADROOM, f, q.g.frameSize);
  }

  lemma {:induction false} OnceNoDup(s: seq<nat>)
    requires forall f {:trigger multiset(s)[f]} :: multiset(s)[f] <= 1
    ensures NoDup(s)
  {
    forall i, j | 0 <= i < j < |s|
      ensures s[i] != s[j]
    {
      if s[i] == s[j] {
        CountTwo(s, i, j);
      }
    }
  }

  lemma {:induction false} CountTwo(s: seq<nat>, i: nat, j: nat)
    requires i < j < |s| && s[i] == s[j]
    ensures multiset(s)[s[i]] >= 2
  {
    assert s == s[..j] + [s[j]] + s[j + 1..];
    assert s[..j][i] in s[..j];
    assert multiset(s) == multiset(s[..j]) + multiset{s[j]} + multiset(s[j + 1..]);
  }

  /** In a state where every frame is in one place, the free list holds none twice. */
  lemma {:induction false} FreeNoDup(h: Home, s: State)
    requires Inv(h, s)
    ensures NoDup(s.free)
  {
    forall f
      ensures multiset(s.free)[f] <= 1
    {
      if f in s.free {
        assert h.g.Holds(f) && Held(s.free, s.pending, s.caller, f) == 1;
      }
    }
    OnceNoDup(s.free);
  }

  /**
   Builds and sends. Whatever the builder and the kernel do, the call is a path of the
   machine and the caller ends with the frames it began with; from a state in which
   every frame is in one place, what goes on the wire is what the builder wrote.
   */
  method SendFunc(q: TxQueue, count: int, build: nat -> Built, kernel: Kernel, ghost s: State)
    returns (sent: nat, err: Error, ghost t: State, ghost steps: seq<Step>, ghost ds: seq<Desc>, ghost n: nat)
    requires q.Valid() && At(q, s) && q.g.frameSize < TWO32
    requires forall a: nat {:trigger q.span(a)} :: q.span(a) == Writable(q.region.Length, q.g.frameSize, a)
    modifies q`msgs, q`iovs, q`iovs2, q`hdrs, q`chainIovs, q`gen, q`msgsChained, q`pending, q`free
    modifies q`wire, q`sysCalls, q`ringFull, q`drops, q`rejected, q.region
    ensures q.Valid() && At(q, t) && t.caller == s.caller && Path(HomeFor(q), s, steps, t)
    ensures q.closed ==> err == Closed && sent == 0 && t == s
    ensures !q.closed ==>
              && q.Cycled(Ready(q.g, q.checked, old(q.Now()), count), Blank(q.g, q.checked, old(q.Now()), count), build,
                          kernel, sent, err, ds, n)
              && sent <= n <= |ds|
              && steps == [Step.Complete(count + |s.pending|), Step.Alloc(count)] + LastSteps(q, sent, err, ds, n)
    ensures Inv(HomeFor(q), s) ==> Inv(HomeFor(q), t)
    ensures Inv(HomeFor(q), s) && !q.closed ==>
              && q.ShowsAll(old(q.wire), build, sent)
              && All(t) + Foreign(HomeFor(q), Returned(s, Step.Complete(count + |s.pending|))) == All(s)
  {
    hide TxQueue.Sendable, SpanInside, ListOK, GiveAll, PushedAll, TxQueue.Cycled, Path, FramesOf, Handed;
    hide Inv, TxQueue.ShowsAll;
    hide LastSteps, Foreign, Returned, All;
    ghost var was, c := q.Now(), s.caller;
    SmallSpans(q);
    sent, err, ds, n := q.SendFunc(count, build, kernel);
    t, steps := State(q.free, FramesOf(q.g, q.pending), c), [];
    if !q.closed {
      GivenOK(q.g, q.checked, was.free, was.pending[..Handable(count + |was.pending|, |was.pending|)]);
      CycledSizes(q, was, count, build, kernel, sent, err, ds, n);
      steps := WholeCycle(q, was, c, count, build, kernel, sent, err, ds, n);
      if Inv(HomeFor(q), s) {
        ApartHere(q, s, was, count);
        CycledShows(q, was, count, build, kernel, sent, err, ds, n);
        CycleConserves(q, was, s, count, build, kernel, sent, err, ds, n, t);
      }
    } else {
      NoPath(HomeFor(q), t);
    }
    if Inv(HomeFor(q), s) {
      PathKeeps(HomeFor(q), s, steps, t);
    }
  }

  /** A step that loses no frame, whatever the state. */
  ghost predicate Harmless(h: Home, step: Step) {
    match step
    case Free(fs) => forall f :: f in fs ==> h.g.Holds(f)
    case Complete(_) => false
    case Arrive(_) => false
    case _ => true
  }

  lemma {:induction false} HarmlessPath(h: Home, s: State, steps: seq<Step>, t: State)
    requires Inv(h, s) && Path(h, s, steps, t) && forall i :: 0 <= i < |steps| ==> Harmless(h, steps[i])
    ensures All(t) == All(s)
    decreases |steps|
  {
    hide Inv, Enabled, Next, All, Geometry.Holds, Foreign;
    if steps != [] {
      assert Harmless(h, steps[0]);
      StepKeeps(h, s, steps[0]);
      StepConserves(h, s, steps[0]);
      NoneForeign(h, Returned(s, steps[0]));
      NothingMore(All(s), All(Next(h, s, steps[0])));
      forall i | 0 <= i < |steps[1..]|
        ensures Harmless(h, steps[1..][i])
      {
        assert steps[1..][i] == steps[i + 1];
      }
      HarmlessPath(h, Next(h, s, steps[0]), steps[1..], t);
    }
  }

  lemma {:induction false} NothingMore(a: multiset<nat>, b: multiset<nat>)
    ensures a + multiset{} == a && b + multiset{} == b
  {
  }

  /** What a call loses: the foreign frames among those it completes. */
  lemma {:induction false} CycleConserves(q: TxQueue, was: Before, s: State, count: int, build: nat -> Built,
                                          kernel: Kernel,
                                          sent: nat, err: Error, ds: seq<Desc>, n: nat, t: State)
    requires q.Valid() && q.g.frameSize >= 2 * HEADROOM && ListOK(q.g, was.free)
    requires FreeOK(q.g, q.checked, was, count)
    requires s.free == was.free && s.pending == FramesOf(q.g, was.pending) && Inv(HomeFor(q), s)
    requires q.Cycled(Ready(q.g, q.checked, was, count), Blank(q.g, q.checked, was, count), build, kernel, sent, err,
             ds, n)
    requires sent <= n <= |ds| && t == State(q.free, FramesOf(q.g, q.pending), s.caller)
    ensures All(t) + Foreign(HomeFor(q), Returned(s, Step.Complete(count + |s.pending|))) == All(s)
  {
    hide TxQueue.Sendable, SpanInside, ListOK, GiveAll, PushedAll, TxQueue.Cycled, Path, FramesOf, Handed;
    hide Inv, Foreign, Next;
    hide LastSteps, All, Returned, Ready, Blank, FreeOK, Enabled, Harmless;
    var ready, blank := Ready(q.g, q.checked, was, count), Blank(q.g, q.checked, was, count);
    assert s == State(was.free, FramesOf(q.g, was.pending), s.caller);
    FirstTwo(q.g, q.checked, was, s.caller, count);
    var s2 := Next(HomeFor(q), Next(HomeFor(q), s, Step.Complete(count + |s.pending|)), Step.Alloc(count));
    CycleLast(q, ready, s2, s.caller, blank, build, kernel, sent, err, ds, n);
    BlankOwn(q, was, count, build, kernel, sent, err, ds, n);
    LostFirst(HomeFor(q), s, count + |s.pending|, count, LastSteps(q, sent, err, ds, n), t);
  }

  lemma {:induction false} CycledSizes(q: TxQueue, was: Before, count: int, build: nat -> Built, kernel: Kernel,
                                       sent: nat,
                                       err: Error, ds: seq<Desc>, n: nat)
    requires IsPow2(q.g.frameSize)
    requires q.Cycled(Ready(q.g, q.checked, was, count), Blank(q.g, q.checked, was, count), build, kernel, sent, err,
             ds, n)
    ensures sent <= n <= |ds|
  {
    hide Ready, Blank;
  }

  /** What is lost on the way is lost at the first step. */
  lemma {:induction false} LostFirst(h: Home, s: State, max: int, count: int, last: seq<Step>, t: State)
    requires Inv(h, s) && Path(h, Next(h, Next(h, s, Step.Complete(max)), Step.Alloc(count)), last, t)
    requires forall i :: 0 <= i < |last| ==> Harmless(h, last[i])
    ensures All(t) + Foreign(h, Returned(s, Step.Complete(max))) == All(s)
  {
    hide Path, Inv, Foreign, Next, All, Returned, Harmless;
    var s1 := Next(h, s, Step.Complete(max));
    var s2 := Next(h, s1, Step.Alloc(count));
    StepKeeps(h, s, Step.Complete(max));
    StepKeeps(h, s1, Step.Alloc(count));
    StepConserves(h, s, Step.Complete(max));
    StepConserves(h, s1, Step.Alloc(count));
    NoneForeign(h, []);
    NothingReturned(s1, count);
    NothingMore(All(s), All(s1));
    NothingMore(All(s2), All(t));
    HarmlessPath(h, s2, last, t);
  }

  lemma {:induction false} NothingReturned(s: State, n: int)
    ensures Returned(s, Step.Alloc(n)) == []
  {
  }

  /** The frames such a call gives back last are those it took. */
  lemma {:induction false} BlankOwn(q: TxQueue, was: Before, count: int, build: nat -> Built, kernel: Kernel,
                                    sent: nat, err: Error, ds: seq<Desc>, n: nat)
    requires q.Valid() && q.g.frameSize >= 2 * HEADROOM && sent <= n <= |ds|
    requires FreeOK(q.g, q.checked, was, count)
    requires q.Cycled(Ready(q.g, q.checked, was, count), Blank(q.g, q.checked, was, count), build, kernel, sent, err,
             ds, n)
    ensures var steps := LastSteps(q, sent, err, ds, n); forall i :: 0 <= i < |steps| ==> Harmless(HomeFor(q), steps[i])
  {
    hide TxQueue.Scratch, SpanInside, ListOK, GiveAll, PushedAll, Geometry.Holds, TxQueue.Took;
    hide TxQueue.HandedOver, TxQueue.WroteAll, TxQueue.ShowsAll, TxQueue.Apart, LastSteps, Harmless, HomeFor;
    var k := Handable(count + |was.pending|, |was.pending|);
    var free1, m := GiveAll(q.g, q.checked, was.free, was.pending[..k]), AllocCount(count, |was.pending[k..]|);
    SameFrames(q.g, ds, Blank(q.g, q.checked, was, count));
    TakenOwn(q.g, free1, m);
    HandedBack(q.g, Taken(free1, m));
    assert FramesOf(q.g, ds) == Taken(free1, m);
    OwnHarmless(q, sent, err, ds, n);
  }

  lemma {:induction false} OwnHarmless(q: TxQueue, sent: nat, err: Error, ds: seq<Desc>, n: nat)
    requires q.g.Valid() && sent <= n <= |ds|
    requires var fs := FramesOf(q.g, ds); forall k {:trigger fs[k]} :: 0 <= k < |fs| ==> q.g.Holds(fs[k])
    ensures var steps := LastSteps(q, sent, err, ds, n); forall i :: 0 <= i < |steps| ==> Harmless(HomeFor(q), steps[i])
  {
    hide Geometry.Holds;
    var fs := FramesOf(q.g, ds);
    forall f | f in fs
      ensures q.g.Holds(f)
    {
      var j :| 0 <= j < |fs| && f == fs[j];
    }
  }

  lemma {:induction false} NoGuards(h: Home, n: int)
    ensures forall s {:trigger Enabled(h, s, Step.Complete(n))} :: Enabled(h, s, Step.Complete(n))
    ensures forall s {:trigger Enabled(h, s, Step.Alloc(n))} :: Enabled(h, s, Step.Alloc(n))
  {
  }

  lemma {:induction false} NoPath(h: Home, s: State)
    ensures Path(h, s, [], s)
  {
  }

  lemma {:induction false} SmallSpans(q: TxQueue)
    requires q.g.Valid() && q.g.frameSize < TWO32
    requires forall a: nat {:trigger q.span(a)} :: q.span(a) == Writable(q.region.Length, q.g.frameSize, a)
    ensures forall a: nat :: q.span(a) < TWO32
  {
    forall a: nat
      ensures q.span(a) < TWO32
    {
      assert q.span(a) == Writable(q.region.Length, q.g.frameSize, a);
    }
  }

  /** The frames the call will take are apart. */
  lemma {:induction false} ApartHere(q: TxQueue, s: State, was: Before, count: int)
    requires q.g.Valid() && q.g.frameSize >= 2 * HEADROOM
    requires FreeOK(q.g, q.checked, was, count)
    requires s.free == was.free && s.pending == FramesOf(q.g, was.pending) && Inv(HomeFor(q), s)
    requires forall a: nat {:trigger q.span(a)} :: q.span(a) == Writable(q.region.Length, q.g.frameSize, a)
    ensures q.Apart(Blank(q.g, q.checked, was, count))
  {
    hide ListOK, GiveAll, PushedAll, FramesOf, Handed, Inv, TxQueue.Apart;
    var h, all := HomeFor(q), count + |was.pending|;
    var k := Handable(all, |was.pending|);
    var free1, m := GiveAll(q.g, q.checked, was.free, was.pending[..k]), AllocCount(count, |was.pending[k..]|);
    FirstTwo(q.g, q.checked, was, s.caller, count);
    StepKeeps(h, s, Step.Complete(all));
    FreeNoDup(h, Next(h, s, Step.Complete(all)));
    TakenOwn(q.g, free1, m);
    TakenNoDup(free1, m);
    HandedApart(q, Taken(free1, m));
  }

  lemma {:induction false} TakenNoDup(free: seq<nat>, n: int)
    requires NoDup(free)
    ensures NoDup(Taken(free, n))
  {
  }

  lemma {:induction false} CycledShows(q: TxQueue, was: Before, count: int, build: nat -> Built, kernel: Kernel,
                                       sent: nat,
                                       err: Error, ds: seq<Desc>, n: nat)
    requires IsPow2(q.g.frameSize) && q.Apart(Blank(q.g, q.checked, was, count))
    requires q.Cycled(Ready(q.g, q.checked, was, count), Blank(q.g, q.checked, was, count), build, kernel, sent, err,
             ds, n)
    ensures q.ShowsAll(was.wire, build, sent)
  {
    hide GiveAll, TxQueue.ShowsAll, TxQueue.Apart;
  }
}
