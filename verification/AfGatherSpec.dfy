/** Packets given as segments, back to back, with the number of segments of each. */
module AfGatherSpec {
  import opened Words
  import opened Bytes
  import opened Offloads
  import opened AfTxSpec
  import opened AfKernel

  /** How many segments the first `p` packets claim; a claim of none or fewer counts as none. */
  function SegStart(counts: seq<int>, p: nat): nat
    requires p <= |counts|
  {
    if p == 0 then 0 else SegStart(counts, p - 1) + (if counts[p - 1] > 0 then counts[p - 1] else 0)
  }

  lemma {:induction false} SegStartMono(counts: seq<int>, p: nat, q: nat)
    requires p <= q <= |counts|
    ensures SegStart(counts, p) <= SegStart(counts, q)
    decreases q
  {
    if p < q {
      SegStartMono(counts, p, q - 1);
    }
  }

  /** Packet `p` is whole: it has segments, they are all there, none is empty, and it is fit to send. */
  ghost predicate Whole(segs: seq<bytes>, counts: seq<int>, offs: Option<seq<Offload>>, p: nat)
    requires offs.Some? ==> |offs.value| == |counts|
  {
    && p < |counts| && 0 < counts[p] <= MAX_CHAIN && SegStart(counts, p) + counts[p] <= |segs|
    && (forall j {:trigger segs[j]} :: SegStart(counts, p) <= j < SegStart(counts, p) + counts[p] ==> segs[j] != [])
    && (offs.Some? ==> OffloadFits(offs.value[p], TotalLen(segs, SegStart(counts, p), counts[p])))
  }

  /** The length of `n` segments, as the code's 32-bit counter has it. */
  function TotalLen(segs: seq<bytes>, at: nat, n: nat): u32
    requires at + n <= |segs|
  {
    if n == 0 then 0 else Wrap32(TotalLen(segs, at, n - 1) + Wrap32(|segs[at + n - 1]|))
  }

  /** Pointers to every segment of call `call`. */
  function SegPieces(call: nat, segs: seq<bytes>): (vs: seq<Iov>)
    ensures |vs| == |segs|
  {
    seq(|segs|, j requires 0 <= j < |segs| => Iov(Caller(call, j), |segs[j]|))
  }

  ghost predicate AllWhole(segs: seq<bytes>, counts: seq<int>, offs: Option<seq<Offload>>, lo: nat, hi: nat)
    requires offs.Some? ==> |offs.value| == |counts|
  {
    lo <= hi <= |counts| && forall p :: lo <= p < hi ==> Whole(segs, counts, offs, p)
  }

  /** The packets `lo..hi` of a call. */
  ghost function GatherPackets(call: nat, segs: seq<bytes>, counts: seq<int>, offs: Option<seq<Offload>>, lo: nat,
                               hi: nat): (ps: seq<Pkt>)
    requires (offs.Some? ==> |offs.value| == |counts|) && AllWhole(segs, counts, offs, lo, hi)
    ensures |ps| == hi - lo
    decreases hi
  {
    if lo == hi then []
    else
      assert Whole(segs, counts, offs, hi - 1);
      assert AllWhole(segs, counts, offs, lo, hi - 1);
      GatherPackets(call, segs, counts, offs, lo, hi - 1) + [PacketAt(call, segs, counts, offs, hi - 1)]
  }

  ghost function PacketAt(call: nat, segs: seq<bytes>, counts: seq<int>, offs: Option<seq<Offload>>, p: nat): Pkt
    requires (offs.Some? ==> |offs.value| == |counts|) && Whole(segs, counts, offs, p)
  {
    var at := SegStart(counts, p);
    Pkt(MetaAt(offs, p), SegPieces(call, segs)[at..at + counts[p]])
  }

  lemma {:induction false} GatherAt(call: nat, segs: seq<bytes>, counts: seq<int>, offs: Option<seq<Offload>>,
                                    lo: nat, hi: nat, i: nat)
    requires (offs.Some? ==> |offs.value| == |counts|) && AllWhole(segs, counts, offs, lo, hi) && i < hi - lo
    ensures Whole(segs, counts, offs, lo + i)
    ensures GatherPackets(call, segs, counts, offs, lo, hi)[i] == PacketAt(call, segs, counts, offs, lo + i)
    decreases hi
  {
    assert Whole(segs, counts, offs, lo + i);
    if i < hi - lo - 1 {
      GatherAt(call, segs, counts, offs, lo, hi - 1, i);
    }
  }

  lemma {:induction false} GatherJoin(call: nat, segs: seq<bytes>, counts: seq<int>, offs: Option<seq<Offload>>,
                                      lo: nat, mid: nat, hi: nat)
    requires (offs.Some? ==> |offs.value| == |counts|) && lo <= mid <= hi && AllWhole(segs, counts, offs, lo, hi)
    ensures AllWhole(segs, counts, offs, lo, mid) && AllWhole(segs, counts, offs, mid, hi)
    ensures GatherPackets(call, segs, counts, offs, lo, hi)
            == GatherPackets(call, segs, counts, offs, lo, mid) + GatherPackets(call, segs, counts, offs, mid, hi)
    decreases hi
  {
    if mid < hi {
      GatherJoin(call, segs, counts, offs, lo, mid, hi - 1);
    }
  }

  lemma {:induction false} GatherGood(world: World, segs: seq<bytes>, counts: seq<int>, offs: Option<seq<Offload>>,
                                      lo: nat, hi: nat)
    requires (offs.Some? ==> |offs.value| == |counts|) && AllWhole(segs, counts, offs, lo, hi) && world.segs == segs
    ensures AllPktsGood(world, GatherPackets(world.call, segs, counts, offs, lo, hi))
  {
    var ps := GatherPackets(world.call, segs, counts, offs, lo, hi);
    forall i | 0 <= i < |ps|
      ensures AllGood(world, ps[i].pieces)
    {
      GatherAt(world.call, segs, counts, offs, lo, hi, i);
    }
  }

  /** The packets found cut the remaining segments into themselves. */
  lemma {:induction false} GatherCut(call: nat, segs: seq<bytes>, counts: seq<int>, offs: Option<seq<Offload>>,
                                     lo: nat, hi: nat,
                  lens: seq<nat>, metas: seq<Offload>, ends: seq<nat>)
    requires (offs.Some? ==> |offs.value| == |counts|) && AllWhole(segs, counts, offs, lo, hi)
             && SegStart(counts, lo) <= |segs|
    requires |lens| == |metas| == |ends| == hi - lo
    requires forall j {:trigger lens[j]} :: 0 <= j < hi - lo ==> lens[j] == counts[lo + j]
    requires forall j {:trigger metas[j]} :: 0 <= j < hi - lo ==> metas[j] == MetaAt(offs, lo + j)
    requires forall j {:trigger ends[j]} :: 0 <= j < hi - lo ==>
             ends[j] == SegStart(counts, lo + j + 1) - SegStart(counts, lo)
    ensures CutInto(SegPieces(call, segs)[SegStart(counts, lo)..], lens, ends, metas,
                    GatherPackets(call, segs, counts, offs, lo, hi))
  {
    var base := SegStart(counts, lo);
    var pieces, ps := SegPieces(call, segs)[base..], GatherPackets(call, segs, counts, offs, lo, hi);
    forall m | 0 <= m < |ps|
      ensures && lens[m] == ends[m] - Begin(0, ends, m) && ends[m] <= |pieces|
              && ps[m].off == metas[m] && ps[m].pieces == pieces[Begin(0, ends, m)..ends[m]]
    {
      GatherAt(call, segs, counts, offs, lo, hi, m);
      SegStartMono(counts, lo, lo + m);
      var at := SegStart(counts, lo + m);
      assert SegStart(counts, lo + m + 1) == at + counts[lo + m];
      assert Begin(0, ends, m) == at - base;
      assert pieces[at - base..at - base + counts[lo + m]] == SegPieces(call, segs)[at..at + counts[lo + m]];
    }
  }

  /** Where each of the packets `lo..hi` ends, counted in segments from the first of them. */
  ghost function SegEnds(counts: seq<int>, lo: nat, hi: nat): (ends: seq<nat>)
    requires lo <= hi <= |counts|
    ensures |ends| == hi - lo
    ensures forall j {:trigger ends[j]} :: 0 <= j < hi - lo ==>
            ends[j] == SegStart(counts, lo + j + 1) - SegStart(counts, lo)
    decreases hi
  {
    if lo == hi then []
    else
      SegStartMono(counts, lo, hi);
      SegEnds(counts, lo, hi - 1) + [SegStart(counts, hi) - SegStart(counts, lo)]
  }

  /** The first segment of packet `lo + k`, from that of packet `lo`. */
  method NextBase(counts: seq<int>, lo: nat, base: nat, lens: seq<nat>, k: nat) returns (next: nat)
    requires lo + |lens| <= |counts| && k <= |lens| && base == SegStart(counts, lo)
    requires forall j {:trigger lens[j]} :: 0 <= j < |lens| ==> lens[j] == counts[lo + j] && lens[j] > 0
    ensures next == SegStart(counts, lo + k)
  {
    next := base;
    for m := 0 to k
      invariant next == SegStart(counts, lo + m)
    {
      next := next + lens[m];
    }
  }

  // ------------------------------------------------------------ the first pass

  method CheckPacket(segs: seq<bytes>, counts: seq<int>, offs: Option<seq<Offload>>, p: nat, at: nat) returns (ok: bool)
    requires (offs.Some? ==> |offs.value| == |counts|) && p < |counts| && at == SegStart(counts, p)
    ensures ok == Whole(segs, counts, offs, p)
  {
    var n := counts[p];
    if n <= 0 || at + n > |segs| || n > MAX_CHAIN {
      return false;
    }
    var length: u32 := 0;
    for i := 0 to n
      invariant length == TotalLen(segs, at, i)
      invariant forall j {:trigger segs[j]} :: at <= j < at + i ==> segs[j] != []
    {
      if |segs[at + i]| == 0 {
        return false;
      }
      length := Wrap32(length + Wrap32(|segs[at + i]|));
    }
    return offs.Some? ==> OffloadFits(offs.value[p], length);
  }

  /** What a first pass promises of the packets `lo..hi` it found. */
  ghost predicate FoundPackets(gso: bool, segs: seq<bytes>, counts: seq<int>, offs: Option<seq<Offload>>, lo: nat,
                               hi: nat,
                               lens: seq<nat>, metas: seq<Offload>, iovN: nat)
    requires offs.Some? ==> |offs.value| == |counts|
  {
    && AllWhole(segs, counts, offs, lo, hi) && |lens| == |metas| == hi - lo <= TX_BATCH
    && SegStart(counts, lo) <= SegStart(counts, hi) <= |segs|
    && (forall j {:trigger lens[j]} :: 0 <= j < hi - lo ==> lens[j] == counts[lo + j] && lens[j] > 0)
    && (forall j {:trigger metas[j]} :: 0 <= j < hi - lo ==> metas[j] == MetaAt(offs, lo + j))
    && iovN == SegStart(counts, hi) - SegStart(counts, lo) + (if gso then hi - lo else 0)
  }

  /** How many packets go into one batch, from packet `p` on, that has `m` of them and `iovs` iovecs already. */
  ghost function BatchSize(gso: bool, segs: seq<bytes>, counts: seq<int>, offs: Option<seq<Offload>>, p: nat, m: nat,
                           iovs: nat): (n: nat)
    requires offs.Some? ==> |offs.value| == |counts|
    ensures p <= |counts| ==> p + n <= |counts|
    decreases |counts| - p
  {
    if m >= TX_BATCH || !Whole(segs, counts, offs, p) || iovs + Need(gso, counts[p]) > IOV_BUDGET then 0
    else 1 + BatchSize(gso, segs, counts, offs, p + 1, m + 1, iovs + Need(gso, counts[p]))
  }

  lemma {:induction false} SizeStep(gso: bool, segs: seq<bytes>, counts: seq<int>, offs: Option<seq<Offload>>, p: nat,
                                    m: nat,
                                    iovs: nat)
    requires offs.Some? ==> |offs.value| == |counts|
    ensures Whole(segs, counts, offs, p) ==> p < |counts| && counts[p] > 0
    ensures BatchSize(gso, segs, counts, offs, p, m, iovs)
            == if m >= TX_BATCH || !Whole(segs, counts, offs, p) || iovs + Need(gso, counts[p]) > IOV_BUDGET then 0
               else 1 + BatchSize(gso, segs, counts, offs, p + 1, m + 1, iovs + Need(gso, counts[p]))
  {
  }

  /** The packets of each batch, were all batches taken. */
  ghost function GatherOffers(gso: bool, segs: seq<bytes>, counts: seq<int>, offs: Option<seq<Offload>>,
                              p: nat): seq<nat>
    requires (offs.Some? ==> |offs.value| == |counts|) && p <= |counts|
    decreases |counts| - p
  {
    var n := BatchSize(gso, segs, counts, offs, p, 0, 0);
    if n == 0 then [] else [n] + GatherOffers(gso, segs, counts, offs, p + n)
  }

  lemma {:induction false} NothingTorn(gso: bool, segs: seq<bytes>, counts: seq<int>, offs: Option<seq<Offload>>,
                                       p: nat)
    requires (offs.Some? ==> |offs.value| == |counts|) && p <= |counts|
             && (p == |counts| || !Whole(segs, counts, offs, p))
    ensures BatchSize(gso, segs, counts, offs, p, 0, 0) == 0 && GatherOffers(gso, segs, counts, offs, p) == []
  {
  }

  method ScanPackets(gso: bool, segs: seq<bytes>, counts: seq<int>, offs: Option<seq<Offload>>, lo: nat, base: nat)
    returns (lens: seq<nat>, metas: seq<Offload>, iovN: nat, refused: bool)
    requires (offs.Some? ==> |offs.value| == |counts|) && lo < |counts| && base == SegStart(counts, lo) <= |segs|
    ensures lo + |lens| <= |counts| && FoundPackets(gso, segs, counts, offs, lo, lo + |lens|, lens, metas, iovN)
    ensures |lens| == BatchSize(gso, segs, counts, offs, lo, 0, 0)
    ensures refused ==> lo + |lens| < |counts| && !Whole(segs, counts, offs, lo + |lens|)
    ensures lens == [] ==> refused
  {
    hide BatchSize;
    lens, metas, iovN, refused := [], [], 0, false;
    ghost var all := BatchSize(gso, segs, counts, offs, lo, 0, 0);
    var p, full, at := lo, false, base;
    while p < |counts| && |lens| < TX_BATCH && !refused && !full
      invariant p == lo + |lens| <= |counts| && FoundPackets(gso, segs, counts, offs, lo, p, lens, metas, iovN)
      invariant at == SegStart(counts, p)
      invariant refused ==> p < |counts| && !Whole(segs, counts, offs, p)
      invariant full ==> lens != []
      invariant all == |lens| + (if refused || full then 0 else BatchSize(gso, segs, counts, offs, p, |lens|, iovN))
      decreases !refused && !full, |counts| - p
    {
      var ok := CheckPacket(segs, counts, offs, p, at);
      SizeStep(gso, segs, counts, offs, p, |lens|, iovN);
      if !ok {
        refused := true;
      } else {
        var need := Need(gso, counts[p]);
        if iovN + need > IOV_BUDGET {
          full := true;
        } else {
          lens, metas := lens + [counts[p]], metas + [MetaAt(offs, p)];
          iovN, at, p := iovN + need, at + counts[p], p + 1;
        }
      }
    }
    SizeStep(gso, segs, counts, offs, p, |lens|, iovN);
  }
}
