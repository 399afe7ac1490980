/**
 The last-in first-out list of free frames, in both builds: the ordinary one,
 and the checked one that also keeps a bit per frame saying whether the frame
 is on the list.
 */
module Pool {
  import opened Words

  /** One queue's slice of the region: `count` frames from frame index `first`. */
  datatype Geometry = Geometry(first: nat, count: nat, frameSize: nat) {
    function Base(): nat { first * frameSize }

    function End(): nat { (first + count) * frameSize }

    ghost predicate Valid() { IsPow2(frameSize) && End() <= TWO64 }

    predicate Holds(addr: nat)
      requires frameSize > 0
    {
      Base() <= addr < End() && addr % frameSize == 0
    }

    function FrameAt(i: nat): nat { (first + i) * frameSize }
  }

  ghost predicate NoDup<T>(s: seq<T>) {
    forall i, j :: 0 <= i < j < |s| ==> s[i] != s[j]
  }

  lemma {:induction false} NoDupCount(s: seq<nat>, f: nat)
    requires NoDup(s)
    ensures multiset(s)[f] == if f in s then 1 else 0
  {
    if s != [] {
      NoDupCount(s[1..], f);
      assert s == [s[0]] + s[1..];
    }
  }

  /** Frames of a slice and their indices are in one-to-one correspondence. */
  lemma {:induction false} FrameIndex(g: Geometry, addr: nat)
    requires g.Valid() && g.Holds(addr)
    ensures var i := (addr - g.Base()) / g.frameSize;
            0 <= i < g.count && g.FrameAt(i) == addr
  {
    var m := g.frameSize;
    var q := addr / m;
    assert addr == m * q + addr % m;
    var i := q - g.first;
    assert addr - g.Base() == i * m + 0 by {
      assert i * m == q * m - g.first * m;
    }
    ModUnique(addr - g.Base(), m, i, 0);
    assert i * m == addr - g.Base() >= 0;
    MulAtLeast(i, m);
    assert (g.first + g.count - q) * m == g.End() - addr > 0;
    MulAtLeast(g.first + g.count - q, m);
  }

  lemma {:induction false} IndexFrame(g: Geometry, i: nat)
    requires g.Valid() && i < g.count
    ensures g.Holds(g.FrameAt(i)) && (g.FrameAt(i) - g.Base()) / g.frameSize == i
  {
    var m := g.frameSize;
    ModUnique(g.FrameAt(i), m, g.first + i, 0);
    assert g.FrameAt(i) - g.Base() == i * m by {
      assert (g.first + i) * m == g.first * m + i * m;
    }
    ModUnique(i * m, m, i, 0);
    assert (g.count - i) * m == g.End() - g.FrameAt(i);
    MulAtLeast(g.count - i, m);
    assert i * m >= 0;
  }

  /** How many frames a request for `n` takes. */
  function Grant(free: seq<nat>, n: int): (k: nat)
    ensures k <= |free|
  {
    if n <= 0 then 0 else Min(n, |free|)
  }

  function Kept(free: seq<nat>, n: int): seq<nat> { free[..|free| - Grant(free, n)] }

  function Taken(free: seq<nat>, n: int): seq<nat> { free[|free| - Grant(free, n)..] }

  /** Whether the list takes `addr` back. */
  predicate Accepts(g: Geometry, checked: bool, free: seq<nat>, addr: nat)
    requires g.frameSize > 0
  {
    g.Holds(addr) && |free| < g.count && (checked ==> addr !in free)
  }

  function Pushed(g: Geometry, checked: bool, free: seq<nat>, addr: nat): seq<nat>
    requires g.frameSize > 0
  {
    if Accepts(g, checked, free, addr) then free + [addr] else free
  }

  /** The list after a run of returns, first to last. */
  function PushedAll(g: Geometry, checked: bool, free: seq<nat>, fs: seq<nat>): seq<nat>
    requires g.frameSize > 0
    decreases |fs|
  {
    if fs == [] then free else Pushed(g, checked, PushedAll(g, checked, free, fs[..|fs| - 1]), fs[|fs| - 1])
  }

  lemma {:induction false} PushedJoin(g: Geometry, checked: bool, free: seq<nat>, a: seq<nat>, b: seq<nat>)
    requires g.frameSize > 0
    ensures PushedAll(g, checked, PushedAll(g, checked, free, a), b) == PushedAll(g, checked, free, a + b)
    decreases |b|
  {
    hide Pushed;
    if b == [] {
      assert a + b == a;
    } else {
      assert (a + b)[..|a + b| - 1] == a + b[..|b| - 1];
      PushedJoin(g, checked, free, a, b[..|b| - 1]);
    }
  }

  lemma {:induction false} PushedStep(g: Geometry, checked: bool, free: seq<nat>, fs: seq<nat>, k: nat)
    requires g.frameSize > 0 && k < |fs|
    ensures PushedAll(g, checked, free, fs[..k + 1]) == Pushed(g, checked, PushedAll(g, checked, free, fs[..k]), fs[k])
  {
    hide Pushed;
    assert fs[..k + 1][..k] == fs[..k];
  }

  /** The list as `New` fills it: lowest address last, so it is popped first. */
  function Full(g: Geometry): (s: seq<nat>)
    ensures |s| == g.count
  {
    seq(g.count, i requires 0 <= i < g.count => g.FrameAt(g.count - 1 - i))
  }

  ghost predicate ListOK(g: Geometry, free: seq<nat>)
    requires g.frameSize > 0
  {
    && |free| <= g.count
    && forall k :: 0 <= k < |free| ==> g.Holds(free[k])
  }

  lemma {:induction false} FullOK(g: Geometry)
    requires g.Valid()
    ensures ListOK(g, Full(g)) && NoDup(Full(g))
    ensures forall a: nat :: a in Full(g) <==> g.Holds(a)
  {
    var s := Full(g);
    forall k | 0 <= k < |s|
      ensures g.Holds(s[k]) && (s[k] - g.Base()) / g.frameSize == g.count - 1 - k
    {
      IndexFrame(g, g.count - 1 - k);
    }
    forall a: nat | g.Holds(a)
      ensures a in s
    {
      FrameIndex(g, a);
      var i := (a - g.Base()) / g.frameSize;
      assert s[g.count - 1 - i] == a;
    }
  }

  /** What `initChecks` writes in word `k`: ones, but only for frames that exist. */
  function InitialWord(count: nat, k: nat): nat {
    Pow2(if 64 * k + 64 > count && count % 64 != 0 then count % 64 else 64) - 1
  }

  /** Those words say "free" of every frame and of nothing past the last. */
  lemma {:induction false} InitialBitmap(count: nat, i: nat)
    requires i < 64 * ((count + 63) / 64)
    ensures Bit(InitialWord(count, i / 64), i % 64) <==> i < count
  {
    hide Bit, Pow2;
    var k := i / 64;
    var r := if 64 * k + 64 > count && count % 64 != 0 then count % 64 else 64;
    assert InitialWord(count, k) == Pow2(r) - 1;
    LowBits(r, i % 64);
    assert i == 64 * k + i % 64 && count == 64 * (count / 64) + count % 64;
  }

  class Frames {
    const g: Geometry
    const checked: bool
    const bits: array<nat>
    var free: seq<nat>
    var rejected: nat

    ghost predicate Valid()
      reads this, bits
    {
      && g.Valid()
      && ListOK(g, free)
      && (checked ==> NoDup(free) && bits.Length == (g.count + 63) / 64 && BitmapAgrees(free))
    }

    /** The bitmap says "free" of exactly the frames on the list, and of no index past the last frame. */
    ghost predicate BitmapAgrees(list: seq<nat>)
      reads bits
    {
      forall i: nat {:trigger g.FrameAt(i)} :: i < 64 * bits.Length ==>
        (Bit(bits[i / 64], i % 64) <==> i < g.count && g.FrameAt(i) in list)
    }

    constructor (g: Geometry, checked: bool)
      requires g.Valid()
      ensures Valid() && this.g == g && this.checked == checked && fresh(bits)
      ensures free == Full(g) && rejected == 0
    {
      this.g := g;
      this.checked := checked;
      var words := if checked then (g.count + 63) / 64 else 0;
      bits := new nat[words](k requires k >= 0 => InitialWord(g.count, k));
      free := Full(g);
      rejected := 0;
      new;
      FullOK(g);
      if checked {
        forall i: nat | i < 64 * bits.Length
          ensures Bit(bits[i / 64], i % 64) <==> i < g.count && g.FrameAt(i) in free
        {
          InitialBitmap(g.count, i);
          if i < g.count {
            IndexFrame(g, i);
          }
        }
      }
    }

    function Len(): nat
      reads this
    {
      |free|
    }

    function Index(addr: nat): (i: nat)
      requires g.Valid() && g.Holds(addr)
      ensures i < g.count && g.FrameAt(i) == addr
    {
      FrameIndex(g, addr);
      (addr - g.Base()) / g.frameSize
    }

    /** Takes the last `n` frames of the list, or as many as there are. */
    method Pop(n: int, dst: seq<nat>) returns (out: seq<nat>)
      requires Valid()
      modifies this`free, bits
      ensures Valid()
      ensures free == Kept(old(free), n) && out == dst + Taken(old(free), n)
    {
      var m := if n > |free| then |free| else n;
      if m <= 0 {
        return dst;
      }
      var start := |free| - m;
      if checked {
        MarkTaken(free[start..]);
        forall i: nat | i < g.count
          ensures g.FrameAt(i) in free && g.FrameAt(i) !in free[start..] <==> g.FrameAt(i) in free[..start]
        {
          assert free == free[..start] + free[start..];
        }
      }
      out := dst + free[start..];
      free := free[..start];
    }

    method MarkTaken(addrs: seq<nat>)
      requires Valid() && checked
      requires forall k :: 0 <= k < |addrs| ==> g.Holds(addrs[k])
      modifies bits
      ensures forall i: nat {:trigger g.FrameAt(i)} :: i < 64 * bits.Length ==>
                (Bit(bits[i / 64], i % 64) <==> i < g.count && g.FrameAt(i) in free && g.FrameAt(i) !in addrs)
    {
      hide Bit;
      for k := 0 to |addrs|
        invariant forall i: nat {:trigger g.FrameAt(i)} :: i < 64 * bits.Length ==>
                    (Bit(bits[i / 64], i % 64) <==>
                     i < g.count && g.FrameAt(i) in free && g.FrameAt(i) !in addrs[..k])
      {
        MarkOne(addrs[k]);
        assert addrs[..k + 1] == addrs[..k] + [addrs[k]];
      }
      assert addrs[..|addrs|] == addrs;
    }

    /** Clears the bit of one frame and of no other. */
    method MarkOne(addr: nat)
      requires g.Valid() && bits.Length == (g.count + 63) / 64 && g.Holds(addr)
      modifies bits
      ensures forall j: nat {:trigger g.FrameAt(j)} :: j < 64 * bits.Length ==>
                (Bit(bits[j / 64], j % 64) <==>
                 old(Bit(bits[j / 64], j % 64)) && !(j < g.count && g.FrameAt(j) == addr))
    {
      hide Bit, AndNot;
      var i := Index(addr);
      ghost var was := bits[i / 64];
      bits[i / 64] := AndNot(bits[i / 64], Pow2(i % 64));
      forall j: nat | j < 64 * bits.Length
        ensures Bit(bits[j / 64], j % 64) <==> old(Bit(bits[j / 64], j % 64)) && !(j < g.count && g.FrameAt(j) == addr)
      {
        ClearBit(was, i % 64, j % 64);
        FrameIndex(g, addr);
        if j < g.count {
          IndexFrame(g, j);
        }
      }
    }

    /** Puts one frame back, or counts a refusal. */
    method Push(addr: nat)
      requires Valid()
      modifies this`free, this`rejected, bits
      ensures Valid()
      ensures free == Pushed(g, checked, old(free), addr)
      ensures rejected == old(rejected) + if Accepts(g, checked, old(free), addr) then 0 else 1
    {
      if addr < g.Base() || addr >= g.End() || Within(addr, g.frameSize) != 0 || |free| >= g.count {
        rejected := rejected + 1;
        return;
      }
      if checked {
        var wasOut := MarkFree(addr);
        if !wasOut {
          rejected := rejected + 1;
          return;
        }
      }
      free := free + [addr];
    }

    /** True, and recorded, exactly when the frame was not already on the list. */
    method MarkFree(addr: nat) returns (ok: bool)
      requires Valid() && checked && g.Holds(addr)
      modifies bits
      ensures ok <==> addr !in free
      ensures BitmapAgrees(if ok then free + [addr] else free)
    {
      var i := Index(addr);
      ghost var was := bits[i / 64];
      TestBit(was, i % 64);
      if BitAnd(bits[i / 64], Pow2(i % 64)) != 0 {
        return false;
      }
      bits[i / 64] := BitOr(bits[i / 64], Pow2(i % 64));
      forall j: nat | j < 64 * bits.Length
        ensures Bit(bits[j / 64], j % 64) <==> j < g.count && g.FrameAt(j) in free + [addr]
      {
        SetBit(was, i % 64, j % 64);
        if j < g.count {
          IndexFrame(g, j);
        }
      }
      return true;
    }

    /** The multiple of the frame size at most one frame below `addr`. */
    function FrameBase(addr: nat): (r: nat)
      requires g.Valid()
      ensures r % g.frameSize == 0 && r <= addr < r + g.frameSize
    {
      FrameStart(addr, g.frameSize)
    }
  }

  // ------------------------------------------------- every run of one pool

  datatype Op = PopOp(n: int) | PushOp(addr: nat)

  /** What leaves and what comes back, in order. A refused push is no event. */
  datatype Event = Out(frame: nat) | In(frame: nat)

  function StepFree(g: Geometry, checked: bool, free: seq<nat>, op: Op): seq<nat>
    requires g.frameSize > 0
  {
    match op
    case PopOp(n) => Kept(free, n)
    case PushOp(addr) => Pushed(g, checked, free, addr)
  }

  function StepEvents(g: Geometry, checked: bool, free: seq<nat>, op: Op): seq<Event>
    requires g.frameSize > 0
  {
    match op
    case PopOp(n) => Outs(Taken(free, n))
    case PushOp(addr) => if Accepts(g, checked, free, addr) then [In(addr)] else []
  }

  function Outs(frames: seq<nat>): (es: seq<Event>)
    ensures |es| == |frames|
  {
    seq(|frames|, i requires 0 <= i < |frames| => Out(frames[i]))
  }

  /** The list and the events after a run, from the list `New` builds. */
  function Run(g: Geometry, checked: bool, ops: seq<Op>): (r: (seq<nat>, seq<Event>))
    requires g.frameSize > 0
  {
    if ops == [] then (Full(g), [])
    else
      var before := Run(g, checked, ops[..|ops| - 1]);
      var op := ops[|ops| - 1];
      (StepFree(g, checked, before.0, op), before.1 + StepEvents(g, checked, before.0, op))
  }

  /** Whether the last thing that happened to `a` is that it was handed out. */
  predicate OutNow(h: seq<Event>, a: nat) {
    if h == [] then false
    else if h[|h| - 1] == Out(a) then true
    else if h[|h| - 1] == In(a) then false
    else OutNow(h[..|h| - 1], a)
  }

  /** Every frame handed out was, at that moment, not already out. */
  ghost predicate Alternates(h: seq<Event>) {
    forall j {:trigger h[j]} :: 0 <= j < |h| && h[j].Out? ==> !OutNow(h[..j], h[j].frame)
  }

  lemma {:induction false} OutNowAfterOuts(h: seq<Event>, frames: seq<nat>, a: nat)
    ensures OutNow(h + Outs(frames), a) <==> a in frames || OutNow(h, a)
  {
    if frames == [] {
      assert h + Outs(frames) == h;
    } else {
      var n := |frames| - 1;
      OutNowAfterOuts(h, frames[..n], a);
      var h' := h + Outs(frames);
      assert h'[..|h'| - 1] == h + Outs(frames[..n]);
      assert frames == frames[..n] + [frames[n]];
    }
  }

  lemma {:induction false} AlternatesOuts(h: seq<Event>, frames: seq<nat>)
    requires Alternates(h) && NoDup(frames)
    requires forall a :: a in frames ==> !OutNow(h, a)
    ensures Alternates(h + Outs(frames))
  {
    var h' := h + Outs(frames);
    forall j | 0 <= j < |h'| && h'[j].Out?
      ensures !OutNow(h'[..j], h'[j].frame)
    {
      if j < |h| {
        assert h'[..j] == h[..j];
      } else {
        var k := j - |h|;
        assert h'[..j] == h + Outs(frames[..k]);
        OutNowAfterOuts(h, frames[..k], frames[k]);
      }
    }
  }

  lemma {:induction false} AlternatesIn(h: seq<Event>, a: nat)
    requires Alternates(h)
    ensures Alternates(h + [In(a)])
    ensures forall b :: OutNow(h + [In(a)], b) <==> b != a && OutNow(h, b)
  {
    var h' := h + [In(a)];
    assert h'[..|h|] == h;
    forall j | 0 <= j < |h'| && h'[j].Out?
      ensures !OutNow(h'[..j], h'[j].frame)
    {
      assert h'[..j] == h[..j];
    }
  }

  /** One step of the checked build keeps the list exact. */
  lemma {:induction false} CheckedStep(g: Geometry, free: seq<nat>, h: seq<Event>, op: Op)
    requires g.Valid() && ListOK(g, free) && NoDup(free) && Alternates(h)
    requires forall a: nat :: a in free <==> g.Holds(a) && !OutNow(h, a)
    ensures var free' := StepFree(g, true, free, op);
            var h' := h + StepEvents(g, true, free, op);
            && ListOK(g, free') && NoDup(free') && Alternates(h')
            && forall a: nat :: a in free' <==> g.Holds(a) && !OutNow(h', a)
  {
    match op
    case PopOp(n) =>
      var kept, taken := Kept(free, n), Taken(free, n);
      assert free == kept + taken;
      AlternatesOuts(h, taken);
      forall a: nat
        ensures a in kept <==> g.Holds(a) && !OutNow(h + Outs(taken), a)
      {
        OutNowAfterOuts(h, taken, a);
        assert a in free <==> a in kept || a in taken;
      }
    case PushOp(addr) =>
      if Accepts(g, true, free, addr) {
        AlternatesIn(h, addr);
      } else {
        assert h + [] == h;
      }
  }

  /** The checked build's list after any run at all, however wild the addresses. */
  lemma {:induction false} CheckedRun(g: Geometry, ops: seq<Op>)
    requires g.Valid()
    ensures var (free, h) := Run(g, true, ops);
            && ListOK(g, free) && NoDup(free) && Alternates(h)
            && forall a: nat :: a in free <==> g.Holds(a) && !OutNow(h, a)
  {
    if ops == [] {
      FullOK(g);
    } else {
      CheckedRun(g, ops[..|ops| - 1]);
      var (free, h) := Run(g, true, ops[..|ops| - 1]);
      CheckedStep(g, free, h, ops[|ops| - 1]);
    }
  }

  lemma {:induction false} OutStays(h: seq<Event>, i: nat, j: nat, a: nat)
    requires i < j <= |h| && h[i] == Out(a)
    requires forall k :: i < k < j ==> h[k] != In(a)
    ensures OutNow(h[..j], a)
  {
    assert h[..j][..j - 1] == h[..j - 1];
    if i < j - 1 {
      OutStays(h, i, j - 1, a);
    }
  }

  /** No frame is handed out twice without an accepted return in between. */
  lemma {:induction false} NeverTwoOwners(g: Geometry, ops: seq<Op>, i: nat, j: nat)
    requires g.Valid()
    requires var h := Run(g, true, ops).1; i < j < |h| && h[i].Out? && h[j] == h[i]
    ensures var h := Run(g, true, ops).1; exists k :: i < k < j && h[k] == In(h[i].frame)
  {
    CheckedRun(g, ops);
    var h := Run(g, true, ops).1;
    if forall k :: i < k < j ==> h[k] != In(h[i].frame) {
      OutStays(h, i, j, h[i].frame);
    }
  }

  // ------------------------------------------------- runs of the ordinary build

  /** The caller of one push gives back a frame that is out, or the list turns it away anyway. */
  ghost predicate Honest(g: Geometry, free: seq<nat>, h: seq<Event>, op: Op)
    requires g.frameSize > 0
  {
    op.PushOp? && g.Holds(op.addr) && |free| < g.count ==> OutNow(h, op.addr)
  }

  /** Every push of a run of the ordinary build is such a push. */
  ghost predicate Careful(g: Geometry, ops: seq<Op>)
    requires g.frameSize > 0
    decreases |ops|
  {
    ops != [] ==>
      var before := ops[..|ops| - 1];
      var (free, h) := Run(g, false, before);
      Careful(g, before) && Honest(g, free, h, ops[|ops| - 1])
  }

  /** No list that the run goes through holds a frame twice. */
  ghost predicate NeverTwice(g: Geometry, ops: seq<Op>)
    requires g.frameSize > 0
  {
    forall k {:trigger ops[..k]} :: 0 <= k <= |ops| ==> NoDup(Run(g, false, ops[..k]).0)
  }

  /** From an exact list, a push of the ordinary build keeps it free of repeats iff it is honest. */
  lemma {:induction false} HonestIff(g: Geometry, free: seq<nat>, h: seq<Event>, op: Op)
    requires g.Valid() && ListOK(g, free) && NoDup(free)
    requires forall a: nat :: a in free <==> g.Holds(a) && !OutNow(h, a)
    ensures Honest(g, free, h, op) <==> NoDup(StepFree(g, false, free, op))
    ensures Honest(g, free, h, op) ==> StepFree(g, false, free, op) == StepFree(g, true, free, op)
    ensures Honest(g, free, h, op) ==> StepEvents(g, false, free, op) == StepEvents(g, true, free, op)
  {
    if op.PushOp? && g.Holds(op.addr) && |free| < g.count {
      var out := StepFree(g, false, free, op);
      assert out == free + [op.addr];
      if op.addr in free {
        var i :| 0 <= i < |free| && free[i] == op.addr;
        assert out[i] == out[|free|];
      }
    }
  }

  /**
   Without the bitmap the list holds each frame once, through a whole run, exactly when
   every frame given back was out; then the run is the checked build's.
   */
  lemma {:induction false} UncheckedIff(g: Geometry, ops: seq<Op>)
    requires g.Valid()
    ensures NeverTwice(g, ops) <==> Careful(g, ops)
    ensures Careful(g, ops) ==> Run(g, false, ops) == Run(g, true, ops)
  {
    if ops == [] {
      FullOK(g);
    } else {
      var before, op := ops[..|ops| - 1], ops[|ops| - 1];
      UncheckedIff(g, before);
      PrefixToo(g, ops);
      if Careful(g, before) {
        CheckedRun(g, before);
        var (free, h) := Run(g, true, before);
        HonestIff(g, free, h, op);
      }
    }
  }

  lemma {:induction false} PrefixToo(g: Geometry, ops: seq<Op>)
    requires g.frameSize > 0 && ops != []
    ensures NeverTwice(g, ops) <==> NeverTwice(g, ops[..|ops| - 1]) && NoDup(Run(g, false, ops).0)
  {
    var before := ops[..|ops| - 1];
    assert ops[..|ops|] == ops;
    forall k | 0 <= k < |ops|
      ensures ops[..k] == before[..k]
    {
    }
  }

  /**
   The ordinary build has no such guard: a pool that lost one frame and is given
   another back twice holds that one twice, at the right length.
   */
  lemma {:induction false} UncheckedAliases(g: Geometry, a: nat, b: nat)
    requires g.Valid() && g.count == 2 && g.FrameAt(0) == a && g.FrameAt(1) == b
    ensures Run(g, false, [PopOp(2), PushOp(a), PushOp(a)]).0 == [a, a]
    ensures Run(g, true, [PopOp(2), PushOp(a), PushOp(a)]).0 == [a]
  {
    IndexFrame(g, 0);
    var ops := [PopOp(2), PushOp(a), PushOp(a)];
    assert ops[..2] == [PopOp(2), PushOp(a)];
    assert ops[..2][..1] == [PopOp(2)];
    assert [PopOp(2)][..0] == [];
    forall checked: bool
      ensures Run(g, checked, [PopOp(2)]).0 == []
      ensures Run(g, checked, ops[..2]).0 == [a]
    {
      assert Run(g, checked, [PopOp(2)]).0 == Kept(Full(g), 2);
    }
  }
}
