/**
 The receiving side's buffers for one call: the free list it pops frames from,
 the descriptors it has named so far, the output slices, and the frame memory
 the packets are copied into. It is what the reader's buffer callback closes over.
 */
module RxBatch {
  import opened Words
  import opened Bytes
  import opened Pool
  import opened Offloads
  import opened Tpacket
  import opened AfFrames
  import QueueSpec

  lemma {:induction false} PutData(was: bytes, base: nat, at: nat, s: bytes)
    requires base + at + |s| <= |was|
    ensures Splice(was, base + at, s)[base..base + (at + |s|)] == was[base..base + at] + s
  {
    var now := Splice(was, base + at, s);
    SpliceOwn(was, base + at, s);
    SpliceApart(was, base + at, s, base, base + at);
    assert now[base..base + (at + |s|)] == now[base..base + at] + now[base + at..base + at + |s|];
  }

  class Batch {
    const region: array<u8>
    const g: Geometry
    const max: nat

    /** The free list as the call found it. */
    ghost const start: seq<nat>

    var free: seq<nat>
    var descs: seq<nat>
    var lens: seq<nat>
    var offs: seq<Offload>
    var tss: seq<nat>
    var cont: seq<bool>

    /** Descriptors name the popped frames, last free first, and nothing else has left the list. */
    ghost predicate Valid()
      reads this
    {
      && g.Valid() && 2 * HEADROOM <= g.frameSize <= TWO32 && g.End() <= region.Length
      && |lens| == max && |offs| == max && |tss| == max && |cont| == max
      && NoDup(start) && (forall k :: 0 <= k < |start| ==> g.Holds(start[k]))
      && |descs| <= |start| && |descs| <= max
      && free == start[..|start| - |descs|]
      && (forall i :: 0 <= i < |descs| ==> descs[i] == start[|start| - 1 - i] + HEADROOM)
    }

    /** Bytes in one buffer. */
    function Room(): nat {
      if g.frameSize >= HEADROOM then g.frameSize - HEADROOM else 0
    }

    constructor (region: array<u8>, g: Geometry, free: seq<nat>, max: nat,
                 lens: seq<nat>, offs: seq<Offload>, tss: seq<nat>)
      requires g.Valid() && 2 * HEADROOM <= g.frameSize <= TWO32 && g.End() <= region.Length
      requires NoDup(free) && forall k :: 0 <= k < |free| ==> g.Holds(free[k])
      requires |lens| == max && |offs| == max && |tss| == max
      ensures Valid() && start == free && descs == [] && this.max == max && this.region == region && this.g == g
      ensures forall i :: 0 <= i < max ==> !cont[i]
    {
      this.region, this.g, this.max, start := region, g, max, free;
      this.free, descs := free, [];
      this.lens, this.offs, this.tss := lens, offs, tss;
      cont := seq(max, _ => false);
    }

    lemma {:induction false} BufferInside(i: nat)
      requires Valid() && i < |descs|
      ensures descs[i] + Room() <= region.Length && descs[i] >= HEADROOM
    {
      var f := start[|start| - 1 - i];
      assert g.Holds(f);
      FrameIndex(g, f);
      var k := (f - g.Base()) / g.frameSize;
      MulAtLeast(g.count - k, g.frameSize);
      assert (g.count - k) * g.frameSize == g.End() - g.FrameAt(k);
    }

    /** Buffers of different slots are in different frames. */
    lemma {:induction false} BuffersApart(i: nat, j: nat)
      requires Valid() && i < |descs| && j < |descs| && i != j
      ensures descs[i] + Room() <= descs[j] || descs[j] + Room() <= descs[i]
    {
      var a, b := start[|start| - 1 - i], start[|start| - 1 - j];
      assert g.Holds(a) && g.Holds(b) && a != b;
      if a < b {
        QueueSpec.MultipleGap(a, b, g.frameSize);
      } else {
        QueueSpec.MultipleGap(b, a, g.frameSize);
      }
    }

    /** The first `n` bytes of slot `i`'s buffer. */
    ghost function Data(i: nat, n: nat): bytes
      reads this`descs, region
    {
      if i < |descs| && descs[i] + n <= region.Length then region[descs[i]..descs[i] + n] else []
    }

    lemma {:induction false} DataSize(i: nat, n: nat)
      requires Valid() && i < |descs| && n <= Room()
      ensures |Data(i, n)| == n
    {
      BufferInside(i);
    }

    /**
     The callback: the buffer for slot `i`, or none when the frames have run out.
     Asked again for a slot it has already named, it gives the same one.
     */
    method Get(i: nat) returns (ok: bool)
      requires Valid() && i <= |descs| && i < max
      modifies this`free, this`descs
      ensures Valid() && ok == (i < |start|)
      ensures ok ==> |descs| == if i < |old(descs)| then |old(descs)| else i + 1
      ensures !ok ==> descs == old(descs)
      ensures old(descs) <= descs
      ensures forall j: nat, p: bytes {:trigger old(Has(j, p))} :: old(Has(j, p)) ==> Has(j, p)
    {
      if i < |descs| {
        return true;
      }
      if |free| == 0 {
        return false;
      }
      var f := free[|free| - 1];
      free := free[..|free| - 1];
      descs := descs + [f + HEADROOM];
      return true;
    }

    /** Copies `s` into slot `k`'s buffer after the `at` bytes already `done` there. */
    method Put(k: nat, at: nat, s: bytes, ghost done: bytes)
      requires Valid() && k < |descs| && at + |s| <= Room() && Data(k, at) == done
      modifies region
      ensures Data(k, at + |s|) == done + s
      ensures forall i: nat, p: bytes {:trigger old(Has(i, p))} :: i != k && old(Has(i, p)) ==> Has(i, p)
    {
      BufferInside(k);
      ghost var was := region[..];
      assert Data(k, at) == was[descs[k]..descs[k] + at];
      Blit(region, descs[k] + at, s);
      PutData(was, descs[k], at, s);
      forall i: nat, p: bytes | i != k && old(Has(i, p))
        ensures Has(i, p)
      {
        PutApart(was, i, k, |p|, at, s);
      }
    }

    lemma {:induction false} PutApart(was: bytes, i: nat, k: nat, n: nat, at: nat, s: bytes)
      requires Valid() && i < |descs| && k < |descs| && i != k && n <= Room() && at + |s| <= Room()
      requires |was| == region.Length
      ensures descs[k] + at + |s| <= |was| && descs[i] + n <= |was|
      ensures Splice(was, descs[k] + at, s)[descs[i]..descs[i] + n] == was[descs[i]..descs[i] + n]
    {
      BufferInside(i);
      BufferInside(k);
      BuffersApart(i, k);
      SpliceApart(was, descs[k] + at, s, descs[i], descs[i] + n);
    }

    /** Slot `i` holds exactly the bytes `p`. */
    ghost predicate Has(i: nat, p: bytes)
      reads this`descs, this`lens, region
    {
      i < |descs| && i < |lens| && lens[i] == |p| <= Room() && Data(i, |p|) == p
    }

    /** Slot `i` shows exactly `s`. */
    ghost predicate Shows(i: nat, s: Slot)
      reads this, region
    {
      && Has(i, s.data) && i < |offs| && i < |tss| && i < |cont|
      && offs[i] == s.off && tss[i] == s.time && cont[i] == s.cont
    }

    ghost predicate ShowsAll(ss: seq<Slot>)
      reads this, region
    {
      |ss| <= |descs| && forall i :: 0 <= i < |ss| ==> Shows(i, ss[i])
    }
  }
}
