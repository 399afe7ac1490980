/** Descriptors of the AF_PACKET backend and the frame memory they name. */
module AfFrames {
  import opened Words
  import opened Pool

  /** Where a packet starts in its frame. */
  const HEADROOM: nat := 64

  /** `continued`: the packet goes on in the next descriptor. */
  datatype Desc = Desc(addr: nat, len: u32, continued: bool)

  /** How many bytes of a region of `size` bytes are writable at `addr`, up to the end of its frame. */
  function Writable(size: nat, frameSize: nat, addr: nat): (n: nat)
    requires IsPow2(frameSize)
    ensures addr < size ==> 0 < n && addr + n <= size && addr + n <= FrameStart(addr, frameSize) + frameSize
    ensures addr >= size ==> n == 0
  {
    if addr >= size then 0 else Min(FrameStart(addr, frameSize) + frameSize, size) - addr
  }

  /** A descriptor of a packet, or part of one: some bytes, all inside one frame. */
  predicate DescFits(span: nat -> nat, d: Desc) {
    d.len != 0 && d.len <= span(d.addr)
  }

  /** Spans that lie inside `size` bytes. */
  ghost predicate SpanInside(span: nat -> nat, size: nat) {
    forall a: nat {:trigger span(a)} :: span(a) > 0 ==> a + span(a) <= size
  }

  lemma {:induction false} WritableInside(size: nat, frameSize: nat, span: nat -> nat)
    requires IsPow2(frameSize) && forall a: nat :: span(a) == Writable(size, frameSize, a)
    ensures SpanInside(span, size)
  {
    forall a: nat | span(a) > 0
      ensures a + span(a) <= size
    {
      assert span(a) == Writable(size, frameSize, a);
    }
  }

  /** The test admits exactly the non-empty ranges that lie inside one frame and inside the region. */
  lemma {:induction false} DescFitsIff(span: nat -> nat, size: nat, frameSize: nat, d: Desc)
    requires IsPow2(frameSize) && span(d.addr) == Writable(size, frameSize, d.addr)
    ensures DescFits(span, d) <==>
              && d.len > 0 && d.addr + d.len <= size
              && exists f: nat {:trigger InFrame(f, frameSize, d)} :: InFrame(f, frameSize, d)
  {
    var f := FrameStart(d.addr, frameSize);
    if DescFits(span, d) {
      assert InFrame(f, frameSize, d);
    }
    if g: nat :| InFrame(g, frameSize, d) && d.len > 0 {
      FrameUnique(d.addr, g, frameSize);
    }
  }

  ghost predicate InFrame(f: nat, frameSize: nat, d: Desc)
    requires frameSize > 0
  {
    f % frameSize == 0 && f <= d.addr && d.addr + d.len <= f + frameSize
  }

  /** The frames of descriptors. */
  function FramesOf(g: Geometry, ds: seq<Desc>): (fs: seq<nat>)
    requires IsPow2(g.frameSize)
    ensures |fs| == |ds| && forall i {:trigger fs[i]} :: 0 <= i < |ds| ==> fs[i] == FrameStart(ds[i].addr, g.frameSize)
  {
    seq(|ds|, i requires 0 <= i < |ds| => FrameStart(ds[i].addr, g.frameSize))
  }

  /** The free list after a run of returns, each frame found from its descriptor. */
  function GiveAll(g: Geometry, checked: bool, free: seq<nat>, ds: seq<Desc>): seq<nat>
    requires IsPow2(g.frameSize)
  {
    PushedAll(g, checked, free, FramesOf(g, ds))
  }

  lemma {:induction false} GiveBoth(g: Geometry, checked: bool, free: seq<nat>, a: seq<Desc>, b: seq<Desc>)
    requires IsPow2(g.frameSize)
    ensures GiveAll(g, checked, GiveAll(g, checked, free, a), b) == GiveAll(g, checked, free, a + b)
  {
    assert FramesOf(g, a + b) == FramesOf(g, a) + FramesOf(g, b);
    PushedJoin(g, checked, free, FramesOf(g, a), FramesOf(g, b));
  }

  lemma {:induction false} GiveOne(g: Geometry, checked: bool, free: seq<nat>, ds: seq<Desc>, k: nat)
    requires IsPow2(g.frameSize) && k < |ds|
    ensures GiveAll(g, checked, free, ds[..k + 1])
            == Pushed(g, checked, GiveAll(g, checked, free, ds[..k]), FrameStart(ds[k].addr, g.frameSize))
  {
    var fs := FramesOf(g, ds);
    assert FramesOf(g, ds[..k + 1]) == fs[..k + 1] && FramesOf(g, ds[..k]) == fs[..k];
    PushedStep(g, checked, free, fs, k);
  }
}
