/**
 One AF_PACKET transmit queue. Whatever path sends a batch, each message handed to
 the kernel is shown to gather the bytes of the packet it stands for in this call;
 while `msgsChained` is false every message points at its own fixed slot.
 */
module AfTx {
  import opened Words
  import opened Bytes
  import opened Pool
  import opened Offloads
  import opened AfFrames
  import opened AfTxSpec
  import opened AfGatherSpec
  import opened AfKernel

  /** What a builder leaves: the length it returns, and the bytes it wrote into its frame. */
  datatype Built = Built(len: int, data: bytes)

  /** What a call finds of a queue. */
  datatype Before = Before(wire: seq<bytes>, pending: seq<Desc>, free: seq<nat>, calls: nat, drops: nat)

  datatype Error = Ok | Closed | BadLength | Unsupported

  /** What a queue finds once it has taken back what was sent and taken frames. */
  ghost function Ready(g: Geometry, checked: bool, was: Before, count: int): Before
    requires IsPow2(g.frameSize)
  {
    var k := Handable(count + |was.pending|, |was.pending|);
    var free1, pending1 := GiveAll(g, checked, was.free, was.pending[..k]), was.pending[k..];
    was.(pending := pending1, free := Kept(free1, AllocCount(count, |pending1|)))
  }

  /** The descriptors it has then. */
  ghost function Blank(g: Geometry, checked: bool, was: Before, count: int): seq<Desc>
    requires IsPow2(g.frameSize)
  {
    var k := Handable(count + |was.pending|, |was.pending|);
    Handed(Taken(GiveAll(g, checked, was.free, was.pending[..k]), AllocCount(count, |was.pending[k..]|)))
  }

  /** What the kernel puts on the wire for one message. */
  ghost function Seen(w: Wiring, world: World, m: Msg): bytes {
    var b := Gathered(w, world, m);
    if b.Some? then b.value else []
  }

  ghost function Sees(w: Wiring, world: World, msgs: seq<Msg>): (r: seq<bytes>)
    ensures |r| == |msgs| && forall i :: 0 <= i < |msgs| ==> r[i] == Seen(w, world, msgs[i])
  {
    seq(|msgs|, i requires 0 <= i < |msgs| => Seen(w, world, msgs[i]))
  }

  lemma {:induction false} SeesPackets(w: Wiring, world: World, msgs: seq<Msg>, want: seq<bytes>, lo: nat, hi: nat)
    requires StandFor(w, world, msgs, want) && lo <= hi <= |want|
    ensures Sees(w, world, msgs[lo..hi]) == want[lo..hi]
  {
    forall i | lo <= i < hi
      ensures Seen(w, world, msgs[i]) == want[i]
    {
    }
  }

  lemma {:induction false} SpanAt(span: nat -> nat, size: nat, a: nat)
    requires SpanInside(span, size) && span(a) > 0
    ensures a + span(a) <= size
  {
  }

  /** Bytes written at `a` come out behind a header, as far as the frame is long. */
  lemma {:induction false} Placed(h: bytes, all: bytes, a: nat, len: nat, m: nat, data: bytes)
    requires a + len <= |all| && a + m <= |all| && m <= |data| && all[a..a + m] == data[..m]
    requires m < |data| ==> len <= m
    ensures var w, k := h + all[a..a + len], Min(len, |data|); w[..|h|] == h && w[|h|..|h| + k] == data[..k]
  {
    var w, k := h + all[a..a + len], Min(len, |data|);
    forall i | 0 <= i < k
      ensures w[|h|..|h| + k][i] == data[..k][i]
    {
      assert all[a..a + m][i] == data[..m][i];
      assert w[|h| + i] == all[a..a + len][i] == all[a + i];
    }
  }

  class TxQueue {
    const region: array<u8>
    const g: Geometry
    const gso: bool
    const checked: bool

    /** How many bytes are writable at an address, up to the end of its frame. */
    const span: nat -> nat

    var free: seq<nat>
    var pending: seq<Desc>

    var msgs: seq<Msg>
    var iovs: seq<Iov>
    var iovs2: seq<Iov>
    var hdrs: seq<bytes>
    var chainIovs: seq<Iov>
    var gen: nat
    var msgsChained: bool

    var sysCalls: nat
    var ringFull: nat
    var drops: nat
    var rejected: nat
    var closed: bool

    /** Everything the kernel has put on the wire. */
    ghost var wire: seq<bytes>

    /** The number of the gather call in progress: it tags pointers into that call's segments. */
    var call: nat

    /** What was heard from the kernel since the counters were `calls0` and `drops0`. */
    ghost predicate Said(h: Heard, calls0: nat, drops0: nat, taken: nat)
      reads this`sysCalls, this`drops
    {
      taken == h.taken && sysCalls == calls0 + h.calls && drops == drops0 + h.lost
    }

    function W(): Wiring
      reads this`iovs, this`iovs2, this`hdrs, this`chainIovs, this`gen
    {
      Wiring(iovs, iovs2, hdrs, chainIovs, gen)
    }

    /** Every message points at its own fixed slot. */
    ghost predicate Wired()
      reads this`msgs, this`iovs2
    {
      && |msgs| == TX_BATCH && (gso ==> |iovs2| == 2 * TX_BATCH)
      && forall i :: 0 <= i < TX_BATCH ==>
           if gso then msgs[i] == Msg(Pair(2 * i), 2) && iovs2[2 * i] == Iov(Header(i), HDR_LEN)
           else msgs[i] == Msg(One(i), 1)
    }

    ghost predicate Scratch()
      reads this`msgs, this`iovs, this`iovs2, this`hdrs, this`msgsChained
    {
      && |msgs| == TX_BATCH && |iovs| == TX_BATCH
      && (gso ==> |iovs2| == 2 * TX_BATCH && |hdrs| == TX_BATCH)
      && (!msgsChained ==> Wired())
    }

    ghost predicate Sendable()
      reads this`msgs, this`iovs, this`iovs2, this`hdrs, this`msgsChained, this`pending
    {
      |pending| <= MAX_PENDING && Scratch()
    }

    ghost predicate Valid()
      reads this`msgs, this`iovs, this`iovs2, this`hdrs, this`msgsChained, this`pending, this`free
    {
      && g.Valid() && g.End() <= region.Length && SpanInside(span, region.Length) && ListOK(g, free) && Sendable()
    }

    constructor (region: array<u8>, g: Geometry, gso: bool, checked: bool)
      requires g.Valid() && g.End() <= region.Length
      ensures Valid() && this.region == region && this.g == g && free == Full(g) && pending == [] && wire == []
      ensures !msgsChained && !closed && forall a: nat :: span(a) == Writable(region.Length, g.frameSize, a)
    {
      this.region, this.g, this.gso, this.checked := region, g, gso, checked;
      span := (a: nat) => Writable(region.Length, g.frameSize, a);
      free, pending := Full(g), [];
      msgs := seq(TX_BATCH, _ => Msg(Nowhere, 0));
      iovs := seq(TX_BATCH, _ => Iov(Null, 0));
      iovs2 := if gso then seq(2 * TX_BATCH, _ => Iov(Null, 0)) else [];
      hdrs := if gso then seq(TX_BATCH, _ => Marshal(NONE)) else [];
      chainIovs, gen, msgsChained := [], 0, true;
      sysCalls, ringFull, drops, rejected, closed := 0, 0, 0, 0, false;
      wire, call := [], 0;
      new;
      FullOK(g);
      WritableInside(region.Length, g.frameSize, span);
      WireOnePerPacket();
    }

    /** Points every message back at its own fixed iovec, or pair of them. */
    method WireOnePerPacket()
      requires Scratch()
      modifies this`msgs, this`iovs2, this`msgsChained
      ensures Scratch() && !msgsChained
    {
      for i := 0 to TX_BATCH
        invariant |msgs| == TX_BATCH && (gso ==> |iovs2| == 2 * TX_BATCH)
        invariant forall j :: 0 <= j < i ==>
                    if gso then msgs[j] == Msg(Pair(2 * j), 2) && iovs2[2 * j] == Iov(Header(j), HDR_LEN)
                    else msgs[j] == Msg(One(j), 1)
      {
        if gso {
          msgs := msgs[i := Msg(Pair(2 * i), 2)];
          iovs2 := iovs2[2 * i := Iov(Header(i), HDR_LEN)];
        } else {
          msgs := msgs[i := Msg(One(i), 1)];
        }
      }
      msgsChained := false;
    }

    /** The kernel reads messages `lo..hi` and puts what it finds on the wire. */
    ghost method Deliver(lo: nat, hi: nat, world: World, want: seq<bytes>, wire0: seq<bytes>)
      requires lo <= hi <= |want| && StandFor(W(), world, msgs, want) && wire == wire0 + want[..lo]
      modifies this`wire
      ensures wire == wire0 + want[..hi]
    {
      SeesPackets(W(), world, msgs, want, lo, hi);
      Longer(wire0, want, lo, hi);
      wire := wire + Sees(W(), world, msgs[lo..hi]);
    }

    /** One system call, of messages `sent..n`, after `stall` of them that came to nothing. */
    method AskOnce(sent: nat, n: nat, stall: nat, kernel: Kernel, ghost world: World, ghost want: seq<bytes>,
                   ghost wire0: seq<bytes>)
      returns (now: nat, stalled: nat, stop: bool)
      requires sent < n == |want| && stall < MAX_STALL && StandFor(W(), world, msgs, want)
               && wire == wire0 + want[..sent]
      modifies this`wire, this`sysCalls, this`ringFull, this`drops
      ensures sent <= now <= n && stalled < MAX_STALL && wire == wire0 + want[..now] && sysCalls == old(sysCalls) + 1
      ensures var h := Talk(kernel, old(sysCalls), n - sent, stall);
              && ringFull >= old(ringFull) && drops >= old(drops)
              && if stop then now == sent && h == Heard(0, 1, ringFull - old(ringFull), drops - old(drops))
              else ringFull == old(ringFull) && drops == old(drops) && (now == sent ==> stalled == stall + 1)
                   && h == Joined(Heard(now - sent, 1, 0, 0), Talk(kernel, sysCalls, n - now, stalled))
    {
      hide StandFor, Sees, Seen, Talk;
      var a := Ask(kernel, sysCalls, n - sent);
      TalkStep(kernel, sysCalls, n - sent, stall);
      sysCalls := sysCalls + 1;
      now, stalled, stop := sent, stall, false;
      if a.errno == 0 && a.got > 0 {
        now, stalled := sent + a.got, 0;
        Deliver(sent, now, world, want, wire0);
      } else if a.errno == EAGAIN || a.errno == ENOBUFS {
        ringFull := ringFull + 1;
        stop := true;
      } else if (a.errno != 0 && a.errno != EINTR) || stall + 1 >= MAX_STALL {
        drops := drops + (n - sent);
        stop := true;
      } else {
        stalled := stall + 1;
      }
    }

    /**
     Hands the first `n` messages to the kernel until it has them all, stops, or
     stalls: those taken are those its answers say.
     */
    method SendAll(n: nat, kernel: Kernel, ghost world: World, ghost want: seq<bytes>) returns (sent: nat)
      requires n == |want| && StandFor(W(), world, msgs, want)
      modifies this`wire, this`sysCalls, this`ringFull, this`drops
      ensures sent <= n && wire == old(wire) + want[..sent]
      ensures Said(Talk(kernel, old(sysCalls), n, 0), old(sysCalls), old(drops), sent)
      ensures ringFull == old(ringFull) + Talk(kernel, old(sysCalls), n, 0).full
    {
      hide StandFor, Talk;
      var stall: nat, stop := 0, false;
      sent := 0;
      ghost var h := Heard(0, 0, 0, 0);
      while sent < n && !stop
        invariant sent <= n && stall < MAX_STALL && wire == old(wire) + want[..sent]
        invariant Said(h, old(sysCalls), old(drops), sent) && ringFull == old(ringFull) + h.full
        invariant Talk(kernel, old(sysCalls), n, 0)
               == if stop then h else Joined(h, Talk(kernel, sysCalls, n - sent, stall))
        decreases !stop, n - sent, MAX_STALL - stall
      {
        ghost var full, lost, was := ringFull, drops, sent;
        sent, stall, stop := AskOnce(sent, n, stall, kernel, world, want, old(wire));
        h := Joined(h, Heard(sent - was, 1, ringFull - full, drops - lost));
      }
      TalkStep(kernel, sysCalls, n - sent, stall);
    }

    /** Fills the fixed iovecs, one message a frame. */
    method FillSingles(ds: seq<Desc>, offs: Option<seq<Offload>>, lo: nat, n: nat)
      requires Scratch() && !msgsChained && n <= TX_BATCH
      requires lo + n <= |ds| && (offs.Some? ==> |offs.value| == |ds|)
      modifies this`iovs, this`iovs2, this`hdrs
      ensures Scratch()
      ensures forall i :: 0 <= i < n ==>
                IovsOf(W(), msgs[i]) == Some(IovsFor(gso, i, [PieceOf(ds[lo + i])]))
      ensures gso ==> forall i :: 0 <= i < n ==> hdrs[i] == Marshal(MetaAt(offs, lo + i))
    {
      for i := 0 to n
        invariant Scratch()
        invariant gso ==> forall j :: 0 <= j < i ==>
                    hdrs[j] == Marshal(MetaAt(offs, lo + j)) && iovs2[2 * j + 1] == PieceOf(ds[lo + j])
        invariant !gso ==> forall j :: 0 <= j < i ==> iovs[j] == PieceOf(ds[lo + j])
      {
        var d := ds[lo + i];
        if gso {
          hdrs := hdrs[i := Marshal(MetaAt(offs, lo + i))];
          iovs2 := iovs2[2 * i + 1 := PieceOf(d)];
        } else {
          iovs := iovs[i := PieceOf(d)];
        }
      }
      forall i | 0 <= i < n
        ensures IovsOf(W(), msgs[i]) == Some(IovsFor(gso, i, [PieceOf(ds[lo + i])]))
      {
        ghost var vs := IovsFor(gso, i, [PieceOf(ds[lo + i])]);
        if gso {
          assert iovs2[2 * i..2 * i + 2] == [iovs2[2 * i], iovs2[2 * i + 1]] == vs;
        } else {
          assert iovs[i..i + 1] == [iovs[i]] == vs;
        }
      }
    }

    /** Makes room for `n` iovecs; a new allocation is not the one older messages point into. */
    method Reserve(n: nat)
      modifies this`chainIovs, this`gen
      ensures |chainIovs| >= n
    {
      if |chainIovs| < n {
        chainIovs := seq(n, _ => Iov(Null, 0));
        gen := gen + 1;
      }
    }

    /** Writes iovecs into the chain scratch from `at` on. */
    method PutIovs(at: nat, vs: seq<Iov>)
      requires at + |vs| <= |chainIovs|
      modifies this`chainIovs
      ensures |chainIovs| == |old(chainIovs)| && chainIovs[..at] == old(chainIovs)[..at]
      ensures chainIovs[at..at + |vs|] == vs
    {
      for k := 0 to |vs|
        invariant |chainIovs| == |old(chainIovs)| && chainIovs[..at] == old(chainIovs)[..at]
        invariant chainIovs[at..at + k] == vs[..k]
      {
        chainIovs := chainIovs[at + k := vs[k]];
        assert chainIovs[at..at + k + 1] == chainIovs[at..at + k] + [vs[k]];
      }
    }

    /** The first `m` messages point at consecutive runs of the chain scratch, which hold `vss`. */
    ghost predicate LaidOut(vss: seq<seq<Iov>>, hs: seq<bytes>, m: nat)
      requires m <= |vss| == |hs|
      reads this`msgs, this`hdrs, this`chainIovs, this`gen
    {
      && m <= |msgs| && Concat(vss, m) <= chainIovs
      && (forall j :: 0 <= j < m ==> msgs[j] == Msg(Chain(gen, |Concat(vss, j)|), |vss[j]|))
      && (gso ==> hs[..m] <= hdrs)
    }

    /**
     Lays out one message a packet: packet `m` is the next `lens[m]` of the pieces,
     behind its header. The scratch is not reallocated once a message points into it.
     */
    method LayOut(pieces: seq<Iov>, lens: seq<nat>, iovN: nat, metas: seq<Offload>, ghost ends: seq<nat>,
                  ghost ps: seq<Pkt>)
      requires Scratch() && |lens| <= TX_BATCH && CutInto(pieces, lens, ends, metas, ps)
      requires iovN == Begin(0, ends, |ends|) + (if gso then |lens| else 0)
      modifies this`msgs, this`hdrs, this`chainIovs, this`gen, this`msgsChained
      ensures Scratch() && LaidOut(AllIovs(gso, ps), AllHdrs(ps), |ps|)
    {
      Reserve(iovN);
      RoomFor(gso, pieces, lens, ends, metas, ps, |lens|);
      LayMsgs(pieces, lens, metas, ends, ps);
    }

    method LayMsgs(pieces: seq<Iov>, lens: seq<nat>, metas: seq<Offload>, ghost ends: seq<nat>, ghost ps: seq<Pkt>)
      requires Scratch() && |lens| == |metas| <= TX_BATCH && CutInto(pieces, lens, ends, metas, ps)
      requires |Concat(AllIovs(gso, ps), |lens|)| <= |chainIovs|
      modifies this`msgs, this`hdrs, this`chainIovs, this`msgsChained
      ensures Scratch() && LaidOut(AllIovs(gso, ps), AllHdrs(ps), |lens|)
    {
      hide AllIovs, AllHdrs, IovsFor, TxQueue.Wired;
      ghost var vss, hs := AllIovs(gso, ps), AllHdrs(ps);
      var at, d0 := 0, 0;
      for m := 0 to |lens|
        invariant Scratch() && at == |Concat(vss, m)| && d0 == Begin(0, ends, m) && |Concat(vss, |vss|)| <= |chainIovs|
        invariant LaidOut(vss, hs, m)
      {
        NextIovs(gso, pieces, lens, ends, metas, ps, m, d0);
        var vs := IovsFor(gso, m, pieces[d0..d0 + lens[m]]);
        assert |Concat(vss, m)| + |vs| <= |Concat(vss, |vss|)| by {
          ConcatMono(vss, m + 1, |vss|);
        }
        LayOne(m, at, vs, Marshal(metas[m]), vss, hs);
        at, d0 := at + |vs|, d0 + lens[m];
      }
    }

    lemma {:induction false} AllPoint(vss: seq<seq<Iov>>, hs: seq<bytes>)
      requires |vss| == |hs| && LaidOut(vss, hs, |vss|)
      ensures forall m :: 0 <= m < |vss| ==> IovsOf(W(), msgs[m]) == Some(vss[m])
      ensures gso ==> hs <= hdrs
    {
      hide Concat, Slice;
      assert hs[..|hs|] == hs;
      forall m | 0 <= m < |vss|
        ensures IovsOf(W(), msgs[m]) == Some(vss[m])
      {
        ChainFound(vss, m, chainIovs);
      }
    }

    /** One message of `LayOut`. */
    method LayOne(m: nat, at: nat, vs: seq<Iov>, hdr: bytes, ghost vss: seq<seq<Iov>>, ghost hs: seq<bytes>)
      requires Scratch() && m < |vss| == |hs| <= TX_BATCH && at == |Concat(vss, m)| && at + |vs| <= |chainIovs|
      requires vs == vss[m] && hdr == hs[m] && LaidOut(vss, hs, m)
      modifies this`msgs, this`hdrs, this`chainIovs, this`msgsChained
      ensures Scratch() && |chainIovs| == |old(chainIovs)| && LaidOut(vss, hs, m + 1)
    {
      if gso {
        hdrs := hdrs[m := hdr];
      }
      PutIovs(at, vs);
      Extend(Concat(vss, m), vs, chainIovs);
      msgs := msgs[m := Msg(Chain(gen, at), |vs|)];
      msgsChained := true;
    }

    /** Messages whose iovecs are laid out for packets gather those packets. */
    lemma {:induction false} GatherAll(world: World, ps: seq<Pkt>)
      requires AllPktsGood(world, ps) && |ps| <= |msgs| && (gso ==> |ps| <= |hdrs|)
      requires forall m {:trigger ps[m]} :: 0 <= m < |ps| ==>
                 IovsOf(W(), msgs[m]) == Some(IovsFor(gso, m, ps[m].pieces)) && (gso ==> hdrs[m] == Marshal(ps[m].off))
      ensures StandFor(W(), world, msgs, OnWireAll(gso, world, ps))
    {
      forall m | 0 <= m < |ps|
        ensures Gathered(W(), world, msgs[m]) == Some(OnWireAll(gso, world, ps)[m])
      {
        GathersPacket(gso, W(), world, msgs[m], m, ps[m]);
        OnWireAt(gso, world, ps, m);
      }
    }

    lemma {:induction false} GatherLaid(world: World, ps: seq<Pkt>)
      requires AllPktsGood(world, ps) && LaidOut(AllIovs(gso, ps), AllHdrs(ps), |ps|)
      ensures StandFor(W(), world, msgs, OnWireAll(gso, world, ps))
    {
      AllPoint(AllIovs(gso, ps), AllHdrs(ps));
      forall m | 0 <= m < |ps|
        ensures IovsOf(W(), msgs[m]) == Some(IovsFor(gso, m, ps[m].pieces)) && (gso ==> hdrs[m] == Marshal(ps[m].off))
      {
        AllAt(gso, ps, m);
      }
      GatherAll(world, ps);
    }

    /** Lays out a batch of packets of several pieces each and sends it. */
    method SendChains(pieces: seq<Iov>, lens: seq<nat>, iovN: nat, metas: seq<Offload>, kernel: Kernel,
                      ghost world: World, ghost ends: seq<nat>, ghost ps: seq<Pkt>) returns (sent: nat)
      requires iovN == Begin(0, ends, |ends|) + (if gso then |lens| else 0)
      requires Scratch() && |lens| <= TX_BATCH && CutInto(pieces, lens, ends, metas, ps) && AllPktsGood(world, ps)
      modifies this`msgs, this`hdrs, this`chainIovs, this`gen, this`msgsChained
      modifies this`wire, this`sysCalls, this`ringFull, this`drops
      ensures Scratch() && sent <= |ps|
      ensures Said(Talk(kernel, old(sysCalls), |ps|, 0), old(sysCalls), old(drops), sent)
      ensures AllPktsGood(world, ps[..sent]) && wire == old(wire) + OnWireAll(gso, world, ps[..sent])
    {
      hide OnWireAll, AllPktsGood, TxQueue.LaidOut, StandFor, TxQueue.Scratch, Talk;
      LayOut(pieces, lens, iovN, metas, ends, ps);
      GatherLaid(world, ps);
      sent := SendAll(|lens|, kernel, world, OnWireAll(gso, world, ps));
      OnWirePrefix(gso, world, ps, sent);
    }

    /** Fills the fixed slots with a batch of single frames and sends it. */
    method SendSingles(ds: seq<Desc>, offs: Option<seq<Offload>>, lo: nat, n: nat, kernel: Kernel,
                       ghost world: World, ghost ps: seq<Pkt>) returns (sent: nat)
      requires Scratch() && !msgsChained && n <= TX_BATCH && AllPktsGood(world, ps)
      requires lo + n <= |ds| && (offs.Some? ==> |offs.value| == |ds|) && |ps| == n
      requires forall i {:trigger ps[i]} :: 0 <= i < n ==>
                 ps[i].off == MetaAt(offs, lo + i) && ps[i].pieces == [PieceOf(ds[lo + i])]
      modifies this`iovs, this`iovs2, this`hdrs, this`wire, this`sysCalls, this`ringFull, this`drops
      ensures Scratch() && sent <= n && Said(Talk(kernel, old(sysCalls), n, 0), old(sysCalls), old(drops), sent)
      ensures AllPktsGood(world, ps[..sent]) && wire == old(wire) + OnWireAll(gso, world, ps[..sent])
    {
      hide OnWireAll, AllPktsGood, StandFor, TxQueue.Scratch, Talk, IovsFor;
      FillSingles(ds, offs, lo, n);
      GatherAll(world, ps);
      sent := SendAll(n, kernel, world, OnWireAll(gso, world, ps));
      OnWirePrefix(gso, world, ps, sent);
    }

    /** What descriptors `lo..hi` put on the wire and on the pending list. */
    ghost predicate Took(wire0: seq<bytes>, pending0: seq<Desc>, ds: seq<Desc>, offs: Option<seq<Offload>>, lo: nat,
                         hi: nat, world: World)
      requires lo <= hi <= |ds| && (offs.Some? ==> |offs.value| == |ds|)
      reads this`wire, this`pending
    {
      && AllPktsGood(world, PacketsIn(ds, offs, lo, hi))
      && wire == wire0 + OnWireAll(gso, world, PacketsIn(ds, offs, lo, hi))
      && pending == pending0 + ds[lo..hi]
    }

    /** A batch of packets that end at `ends` was handed over: `taken` of them, up to `hi`, were accepted. */
    ghost predicate Answered(kernel: Kernel, calls0: nat, drops0: nat, ends: seq<nat>, lo: nat, hi: nat, taken: nat,
                             short: bool)
      reads this`sysCalls, this`drops
    {
      && Said(Talk(kernel, calls0, |ends|, 0), calls0, drops0, taken)
      && short == (taken < |ends|) && (!short ==> hi == Begin(lo, ends, |ends|))
    }

    /** One batch of packets of several frames each. */
    method ChainBatch(ds: seq<Desc>, offs: Option<seq<Offload>>, lo: nat, room: nat, kernel: Kernel, ghost world: World)
      returns (hi: nat, refused: bool, short: bool, ghost bad: nat)
      requires Sendable() && SpanInside(span, |world.region|) && (offs.Some? ==> |offs.value| == |ds|)
      requires lo < |ds| && lo <= room && |pending| + room - lo <= MAX_PENDING && Boundary(ds, lo)
      modifies this`msgs, this`hdrs, this`chainIovs, this`gen, this`msgsChained, this`pending
      modifies this`wire, this`sysCalls, this`ringFull, this`drops
      ensures Sendable() && lo <= hi <= |ds| && hi <= room && Boundary(ds, hi)
              && Took(old(wire), old(pending), ds, offs, lo, hi, world)
      ensures refused ==> hi <= bad && Unfit(span, ds, offs, bad)
      ensures !short && refused ==> hi == bad
      ensures hi == lo && !refused && !short ==> NoRoom(ds, lo, room)
      ensures Answered(kernel, old(sysCalls), old(drops), BatchEnds(span, gso, ds, offs, lo, room, 0, 0), lo, hi,
                       |PacketsIn(ds, offs, lo, hi)|, short)
    {
      hide BatchEnds, PacketsIn, AllPktsGood, OnWireAll;
      var lens, metas, iovN;
      ghost var ends;
      lens, metas, iovN, refused, ends := Scan(span, gso, ds, offs, lo, room);
      bad := Begin(lo, ends, |ends|);
      hi, short := lo, false;
      if |lens| == 0 {
        NoneTaken(ds, offs, lo, world);
        NoPackets(ds, offs, lo);
        if !refused {
          ringFull := ringFull + 1;
        }
      } else {
        hi, short := SendFound(ds, offs, lo, room, lens, iovN, metas, kernel, world, ends);
      }
    }

    lemma {:induction false} NoneTaken(ds: seq<Desc>, offs: Option<seq<Offload>>, lo: nat, world: World)
      requires lo <= |ds| && (offs.Some? ==> |offs.value| == |ds|)
      ensures Took(wire, pending, ds, offs, lo, lo, world)
    {
      assert ds[lo..lo] == [];
    }

    /** The second half of a batch: the runs found are sent, and the descriptors of those taken become pending. */
    method SendFound(ds: seq<Desc>, offs: Option<seq<Offload>>, lo: nat, room: nat, lens: seq<nat>, iovN: nat,
                     metas: seq<Offload>, kernel: Kernel, ghost world: World, ghost ends: seq<nat>)
      returns (hi: nat, short: bool)
      requires Sendable() && SpanInside(span, |world.region|) && (offs.Some? ==> |offs.value| == |ds|)
      requires Found(span, gso, ds, offs, lo, room, lens, metas, iovN, ends) && |lens| > 0
      requires |pending| + room - lo <= MAX_PENDING && Boundary(ds, lo)
      modifies this`msgs, this`hdrs, this`chainIovs, this`gen, this`msgsChained, this`pending
      modifies this`wire, this`sysCalls, this`ringFull, this`drops
      ensures Sendable() && lo <= hi <= Begin(lo, ends, |ends|) && Boundary(ds, hi)
              && Took(old(wire), old(pending), ds, offs, lo, hi, world)
      ensures !short ==> hi > lo
      ensures Answered(kernel, old(sysCalls), old(drops), ends, lo, hi, |PacketsIn(ds, offs, lo, hi)|, short)
    {
      hide OnWireAll, AllPktsGood, PacketsIn, TxQueue.Wired, Talk, SpanInside;
      var sent := SendRuns(ds, offs, lo, lens, iovN, metas, kernel, world, room, ends);
      short := sent < |lens|;
      hi := EndOf(lo, lens, sent, ends);
      RunCount(ds, offs, lo, ends, metas, sent);
      EndsBelow(ds, offs, lo, ends, metas, sent, |ends|);
      EndsBelow(ds, offs, lo, ends, metas, 1, |ends|);
      assert AfTxSpec.Run(ds, offs, lo, ends, metas, 0);
      pending := pending + ds[lo..hi];
    }

    /** The kernel counts messages; frames are counted here. */
    static method EndOf(lo: nat, lens: seq<nat>, sent: nat, ghost ends: seq<nat>) returns (hi: nat)
      requires sent <= |lens| == |ends|
      requires forall j {:trigger lens[j]} :: 0 <= j < |ends| ==> lens[j] == ends[j] - Begin(lo, ends, j)
      ensures hi == Begin(lo, ends, sent)
    {
      hi := lo;
      for m := 0 to sent
        invariant hi == Begin(lo, ends, m)
      {
        hi := hi + lens[m];
      }
    }

    /** Sends the runs a first pass found. */
    method SendRuns(ds: seq<Desc>, offs: Option<seq<Offload>>, lo: nat, lens: seq<nat>, iovN: nat, metas: seq<Offload>,
                    kernel: Kernel, ghost world: World, ghost room: nat, ghost ends: seq<nat>) returns (sent: nat)
      requires Scratch() && SpanInside(span, |world.region|) && (offs.Some? ==> |offs.value| == |ds|)
      requires Found(span, gso, ds, offs, lo, room, lens, metas, iovN, ends)
      modifies this`msgs, this`hdrs, this`chainIovs, this`gen, this`msgsChained
      modifies this`wire, this`sysCalls, this`ringFull, this`drops
      ensures Scratch() && sent <= |lens| && Said(Talk(kernel, old(sysCalls), |ends|, 0), old(sysCalls), old(drops),
              sent)
      ensures lo <= Begin(lo, ends, sent) <= |ds|
      ensures var ps := PacketsIn(ds, offs, lo, Begin(lo, ends, sent));
              AllPktsGood(world, ps) && wire == old(wire) + OnWireAll(gso, world, ps)
    {
      hide OnWireAll, AllPktsGood, CutInto, PacketsIn, TxQueue.Scratch, Talk, SpanInside;
      ghost var ends0 := Rebased(ends, lo);
      RebasedIs(ds, offs, lo, ends, metas);
      RunsCut(ds, offs, lo, ends, metas, lens, ends0);
      RunsGood(span, ds, offs, lo, ends, metas, world);
      ghost var ps := PacketsIn(ds, offs, lo, Begin(lo, ends, |ends|));
      sent := SendChains(PiecesOf(ds[lo..]), lens, iovN, metas, kernel, world, ends0, ps);
      RunCount(ds, offs, lo, ends, metas, sent);
      RunPrefix(ds, offs, lo, ends, metas, sent, |ends|);
      assert ps[..sent] == PacketsIn(ds, offs, lo, Begin(lo, ends, sent));
    }

    /** Two stretches of a call, the first ending on a boundary, are one. */
    lemma {:induction false} TookMore(wire0: seq<bytes>, pending0: seq<Desc>, wire1: seq<bytes>, pending1: seq<Desc>,
                   ds: seq<Desc>, offs: Option<seq<Offload>>, mid: nat, hi: nat, world: World)
      requires mid <= hi <= |ds| && Boundary(ds, mid) && (offs.Some? ==> |offs.value| == |ds|)
      requires AllPktsGood(world, PacketsIn(ds, offs, 0, mid)) && pending1 == pending0 + ds[0..mid]
      requires wire1 == wire0 + OnWireAll(gso, world, PacketsIn(ds, offs, 0, mid))
      requires Took(wire1, pending1, ds, offs, mid, hi, world)
      ensures Took(wire0, pending0, ds, offs, 0, hi, world)
    {
      hide PacketsIn, OnWireAll, AllPktsGood;
      PacketsJoin(ds, offs, 0, mid, hi);
      OnWireJoin(gso, world, PacketsIn(ds, offs, 0, mid), PacketsIn(ds, offs, mid, hi));
      assert ds[0..mid] + ds[mid..hi] == ds[0..hi];
      Assoc(wire0, OnWireAll(gso, world, PacketsIn(ds, offs, 0, mid)),
         OnWireAll(gso, world, PacketsIn(ds, offs, mid, hi)));
      Assoc(pending0, ds[0..mid], ds[mid..hi]);
    }

    /** Packets of several frames each, batch after batch. */
    method TransmitChained(ds: seq<Desc>, offs: Option<seq<Offload>>, room: nat, kernel: Kernel, ghost world: World)
      returns (total: nat, refused: bool, ghost short: bool, ghost bad: nat)
      requires Sendable() && SpanInside(span, |world.region|) && (offs.Some? ==> |offs.value| == |ds|)
      requires |pending| + room <= MAX_PENDING
      modifies this`msgs, this`hdrs, this`chainIovs, this`gen, this`msgsChained, this`pending
      modifies this`wire, this`sysCalls, this`ringFull, this`drops
      ensures Sendable() && total <= |ds| && total <= room && Boundary(ds, total)
      ensures Took(old(wire), old(pending), ds, offs, 0, total, world)
      ensures Followed(kernel, old(sysCalls), old(drops), ds, offs, room, total, short)
      ensures refused ==> total <= bad && Unfit(span, ds, offs, bad)
      ensures !short && refused ==> total == bad
      ensures !refused && !short ==> total == |ds| || NoRoom(ds, total, room)
    {
      hide PacketsIn, OnWireAll, AllPktsGood, SpanInside, Unfit, NoRoom, Boundary, BatchEnds, Offers, Talk;
      hide TalkAll, TxQueue.Scratch;
      hide Halfway, TxQueue.Answered;
      total, refused, short, bad := 0, false, false, 0;
      var stop := false;
      ghost var offers, done, h := Offers(span, gso, ds, offs, 0, room), [], Heard(0, 0, 0, 0);
      NoneTaken(ds, offs, 0, world);
      NoPackets(ds, offs, 0);
      AtStart(kernel, sysCalls, offers);
      FirstBoundary(ds);
      while total < |ds| && !stop
        invariant Sendable() && total <= |ds| && total <= room && Boundary(ds, total)
        invariant Took(old(wire), old(pending), ds, offs, 0, total, world)
        invariant refused ==> total <= bad && Unfit(span, ds, offs, bad)
        invariant !short && refused ==> total == bad
        invariant if stop then !refused && !short ==> NoRoom(ds, total, room) else !refused && !short
        invariant Said(h, old(sysCalls), old(drops), |PacketsIn(ds, offs, 0, total)|)
        invariant if stop then h == TalkAll(kernel, old(sysCalls), offers) && short == (h.taken < Total(offers))
                  else Halfway(kernel, old(sysCalls), offers, done, Offers(span, gso, ds, offs, total, room), h)
        decreases !stop, |ds| - total
      {
        ghost var wire1, pending1, calls1, drops1 := wire, pending, sysCalls, drops;
        var hi, less;
        hi, refused, less, bad := ChainBatch(ds, offs, total, room, kernel, world);
        TookMore(old(wire), old(pending), wire1, pending1, ds, offs, total, hi, world);
        PacketsJoin(ds, offs, 0, total, hi);
        stop, short := refused || less || hi == total, less;
        h, done := OneMore(kernel, old(sysCalls), old(drops), calls1, drops1, ds, offs, room, total, hi, done, h,
            less, stop);
        total := hi;
      }
      if !stop {
        NothingPast(span, gso, ds, offs, |ds|, room);
        AllDone(kernel, old(sysCalls), offers, done, h);
      }
    }

    /**
     What a call accepted is what the kernel took of the batches offered; it fell short when that is
     not all of them.
     */
    ghost predicate Followed(kernel: Kernel, calls0: nat, drops0: nat, ds: seq<Desc>, offs: Option<seq<Offload>>,
                             room: nat,
                             total: nat, short: bool)
      requires total <= |ds| && (offs.Some? ==> |offs.value| == |ds|)
      reads this`sysCalls, this`drops
    {
      var offers := Offers(span, gso, ds, offs, 0, room);
      var h := TalkAll(kernel, calls0, offers);
      Said(h, calls0, drops0, |PacketsIn(ds, offs, 0, total)|) && short == (h.taken < Total(offers))
    }

    lemma {:induction false} NoPackets(ds: seq<Desc>, offs: Option<seq<Offload>>, at: nat)
      requires at <= |ds| && (offs.Some? ==> |offs.value| == |ds|)
      ensures PacketsIn(ds, offs, at, at) == []
    {
    }

    lemma {:induction false} FirstBoundary(ds: seq<Desc>)
      ensures Boundary(ds, 0)
    {
    }

    lemma {:induction false} AtStart(kernel: Kernel, call: nat, offers: seq<nat>)
      ensures Halfway(kernel, call, offers, [], offers, Heard(0, 0, 0, 0))
    {
      assert [] + offers == offers;
    }

    /** One more batch of a call, as far as the kernel's answers go. */
    lemma {:induction false} OneMore(kernel: Kernel, calls0: nat, drops0: nat, calls1: nat, drops1: nat, ds: seq<Desc>,
                                     offs: Option<seq<Offload>>, room: nat, mid: nat, hi: nat, done: seq<nat>, h: Heard,
                                     less: bool, stop: bool) returns (h1: Heard, done1: seq<nat>)
      requires mid <= hi <= |ds| && (offs.Some? ==> |offs.value| == |ds|)
      requires calls1 == calls0 + h.calls && drops1 == drops0 + h.lost
      requires Halfway(kernel, calls0, Offers(span, gso, ds, offs, 0, room), done,
               Offers(span, gso, ds, offs, mid, room), h)
      requires Answered(kernel, calls1, drops1, BatchEnds(span, gso, ds, offs, mid, room, 0, 0), mid, hi,
                        |PacketsIn(ds, offs, mid, hi)|, less)
      requires less ==> stop
      requires stop && !less ==> hi == mid || Unfit(span, ds, offs, hi)
      ensures Said(h1, calls0, drops0, h.taken + |PacketsIn(ds, offs, mid, hi)|)
      ensures var offers := Offers(span, gso, ds, offs, 0, room);
              if stop then h1 == TalkAll(kernel, calls0, offers) && less == (h1.taken < Total(offers))
              else Halfway(kernel, calls0, offers, done1, Offers(span, gso, ds, offs, hi, room), h1)
    {
      hide PacketsIn, Talk, TalkAll, BatchEnds, Unfit, Halfway;
      var offers := Offers(span, gso, ds, offs, 0, room);
      var ends := BatchEnds(span, gso, ds, offs, mid, room, 0, 0);
      h1, done1 := h, done;
      if ends == [] {
        NothingSaid(kernel, calls1);
        AllDone(kernel, calls0, offers, done, h);
      } else {
        var rest := Offers(span, gso, ds, offs, Begin(mid, ends, |ends|), room);
        GoOn(kernel, calls0, offers, done, |ends|, rest, h);
        h1, done1 := Joined(h, Talk(kernel, calls1, |ends|, 0)), done + [|ends|];
        if stop && !less {
          NothingUnfit(span, gso, ds, offs, hi, room);
          AllDone(kernel, calls0, offers, done1, h1);
        }
      }
    }

    lemma {:induction false} NothingSaid(kernel: Kernel, call: nat)
      ensures Talk(kernel, call, 0, 0) == Heard(0, 0, 0, 0)
    {
    }

    /** One batch of single frames. */
    method SingleBatch(ds: seq<Desc>, offs: Option<seq<Offload>>, lo: nat, end: nat, kernel: Kernel, ghost world: World,
                       ghost room: nat)
      returns (hi: nat, refused: bool, short: bool, ghost bad: nat)
      requires Sendable() && !msgsChained && SpanInside(span, |world.region|) && (offs.Some? ==> |offs.value| == |ds|)
      requires lo <= end <= |ds| && end - lo <= TX_BATCH && |pending| + end - lo <= MAX_PENDING
      requires end <= room && (end == lo + TX_BATCH || end == |ds| || end == room)
      requires forall i {:trigger ds[i]} :: 0 <= i < |ds| ==> !ds[i].continued
      modifies this`iovs, this`iovs2, this`hdrs, this`pending
      modifies this`wire, this`sysCalls, this`ringFull, this`drops
      ensures Sendable() && lo <= hi <= end && Took(old(wire), old(pending), ds, offs, lo, hi, world)
      ensures refused ==> hi <= bad && Unfit(span, ds, offs, bad)
      ensures !short ==> if refused then hi == bad else hi == end
      ensures Answered(kernel, old(sysCalls), old(drops), BatchEnds(span, gso, ds, offs, lo, room, 0, 0), lo, hi,
                       |PacketsIn(ds, offs, lo, hi)|, short)
    {
      hide PacketsIn, OnWireAll, AllPktsGood, TxQueue.Took, Unfit, SingleOK, SpanInside, Talk, BatchEnds;
      var n := CheckSingles(span, ds, offs, lo, end);
      refused, bad, short, hi := lo + n < end, lo + n, false, lo;
      SinglesEnd(span, gso, ds, offs, lo, room, 0, 0, n);
      if refused {
        SingleUnfit(span, ds, offs, lo + n);
      }
      if n > 0 {
        var sent := SendFit(ds, offs, lo, n, kernel, world);
        hi, short := lo + sent, sent < n;
        SinglesAre(ds, offs, lo, hi);
      } else {
        NoneTaken(ds, offs, lo, world);
        NoPackets(ds, offs, lo);
        NothingSaid(kernel, sysCalls);
      }
    }

    /** Sends `n` checked single frames; those taken wait to be handed back. */
    method SendFit(ds: seq<Desc>, offs: Option<seq<Offload>>, lo: nat, n: nat, kernel: Kernel, ghost world: World)
      returns (sent: nat)
      requires Sendable() && !msgsChained && SpanInside(span, |world.region|) && (offs.Some? ==> |offs.value| == |ds|)
      requires lo + n <= |ds| && n <= TX_BATCH && |pending| + n <= MAX_PENDING
      requires forall i {:trigger ds[i]} :: 0 <= i < |ds| ==> !ds[i].continued
      requires forall i :: lo <= i < lo + n ==> SingleOK(span, ds, offs, i)
      modifies this`iovs, this`iovs2, this`hdrs, this`pending
      modifies this`wire, this`sysCalls, this`ringFull, this`drops
      ensures Sendable() && sent <= n && Said(Talk(kernel, old(sysCalls), n, 0), old(sysCalls), old(drops), sent)
      ensures Took(old(wire), old(pending), ds, offs, lo, lo + sent, world)
    {
      hide OnWireAll, AllPktsGood, PacketsIn, SingleOK, Talk, SpanInside;
      SinglesAre(ds, offs, lo, lo + n);
      SinglesGood(span, ds, offs, lo, n, world);
      sent := SendSingles(ds, offs, lo, n, kernel, world, PacketsIn(ds, offs, lo, lo + n));
      SinglesPrefix(ds, offs, lo, n, sent);
      pending := pending + ds[lo..lo + sent];
    }

    /** Single frames, as many as there is room for, batch after batch. */
    method TransmitSingles(ds: seq<Desc>, offs: Option<seq<Offload>>, room: nat, kernel: Kernel, ghost world: World)
      returns (total: nat, refused: bool, ghost short: bool, ghost bad: nat)
      requires Sendable() && !msgsChained && SpanInside(span, |world.region|) && (offs.Some? ==> |offs.value| == |ds|)
      requires |pending| + room <= MAX_PENDING
      requires forall i {:trigger ds[i]} :: 0 <= i < |ds| ==> !ds[i].continued
      modifies this`iovs, this`iovs2, this`hdrs, this`pending
      modifies this`wire, this`sysCalls, this`ringFull, this`drops
      ensures Sendable() && total <= Min(room, |ds|) && Took(old(wire), old(pending), ds, offs, 0, total, world)
      ensures Followed(kernel, old(sysCalls), old(drops), ds, offs, room, total, short)
      ensures refused ==> total <= bad && Unfit(span, ds, offs, bad)
      ensures !short ==> if refused then total == bad else total == Min(room, |ds|)
    {
      hide PacketsIn, OnWireAll, AllPktsGood, SpanInside, Unfit, BatchEnds, Offers, Talk, TalkAll, TxQueue.Scratch;
      hide Halfway, TxQueue.Answered;
      total, refused, short, bad := 0, false, false, 0;
      var end, stop := Min(room, |ds|), false;
      ghost var offers, done, h := Offers(span, gso, ds, offs, 0, room), [], Heard(0, 0, 0, 0);
      NoneTaken(ds, offs, 0, world);
      NoPackets(ds, offs, 0);
      AtStart(kernel, sysCalls, offers);
      while total < end && !stop
        invariant Sendable() && total <= end && Took(old(wire), old(pending), ds, offs, 0, total, world)
        invariant refused ==> total <= bad && Unfit(span, ds, offs, bad)
        invariant !short && refused ==> total == bad
        invariant stop <==> refused || short
        invariant Said(h, old(sysCalls), old(drops), |PacketsIn(ds, offs, 0, total)|)
        invariant if stop then h == TalkAll(kernel, old(sysCalls), offers) && short == (h.taken < Total(offers))
                  else Halfway(kernel, old(sysCalls), offers, done, Offers(span, gso, ds, offs, total, room), h)
        decreases !stop, end - total
      {
        ghost var wire1, pending1, calls1, drops1 := wire, pending, sysCalls, drops;
        var hi, less;
        hi, refused, less, bad := SingleBatch(ds, offs, total, Min(total + TX_BATCH, end), kernel, world, room);
        TookMore(old(wire), old(pending), wire1, pending1, ds, offs, total, hi, world);
        PacketsJoin(ds, offs, 0, total, hi);
        stop, short := refused || less, less;
        h, done := OneMore(kernel, old(sysCalls), old(drops), calls1, drops1, ds, offs, room, total, hi, done, h,
            less, stop);
        total := hi;
      }
      if !stop {
        NothingPast(span, gso, ds, offs, end, room);
        AllDone(kernel, old(sysCalls), offers, done, h);
      }
    }

    /** What packets `lo..hi` of a gather call put on the wire. */
    ghost predicate Gave(wire0: seq<bytes>, segs: seq<bytes>, counts: seq<int>, offs: Option<seq<Offload>>,
                         lo: nat, hi: nat, world: World)
      requires offs.Some? ==> |offs.value| == |counts|
      reads this`wire
    {
      && AllWhole(segs, counts, offs, lo, hi)
      && var ps := GatherPackets(world.call, segs, counts, offs, lo, hi);
         AllPktsGood(world, ps) && wire == wire0 + OnWireAll(gso, world, ps)
    }

    /** One batch of a gather call. */
    method GatherBatch(segs: seq<bytes>, counts: seq<int>, offs: Option<seq<Offload>>, lo: nat, base: nat,
                       kernel: Kernel,
                       ghost world: World) returns (hi: nat, next: nat, refused: bool, short: bool, ghost bad: nat)
      requires Scratch() && world.segs == segs && world.call == call && (offs.Some? ==> |offs.value| == |counts|)
      requires lo < |counts| && base == SegStart(counts, lo) <= |segs|
      modifies this`msgs, this`hdrs, this`chainIovs, this`gen, this`msgsChained
      modifies this`wire, this`sysCalls, this`ringFull, this`drops
      ensures Scratch() && Gave(old(wire), segs, counts, offs, lo, hi, world)
      ensures next == SegStart(counts, hi) <= |segs|
      ensures refused ==> hi <= bad < |counts| && !Whole(segs, counts, offs, bad)
      ensures !short ==> if refused then hi == bad else lo < hi
      ensures var m := BatchSize(gso, segs, counts, offs, lo, 0, 0);
              && Said(Talk(kernel, old(sysCalls), m, 0), old(sysCalls), old(drops), hi - lo)
              && short == (hi - lo < m) && (!short ==> hi == lo + m)
    {
      hide OnWireAll, AllPktsGood, GatherPackets, TxQueue.Scratch, Talk, AllWhole, Whole, TxQueue.Gave, BatchSize;
      var lens, metas, iovN;
      lens, metas, iovN, refused := ScanPackets(gso, segs, counts, offs, lo, base);
      bad := lo + |lens|;
      if |lens| == 0 {
        hi, next, short := lo, base, false;
        NoneGave(segs, counts, offs, lo, world);
        NothingSaid(kernel, sysCalls);
      } else {
        hi := SendPackets(segs, counts, offs, lo, base, lens, iovN, metas, kernel, world);
        next := NextBase(counts, lo, base, lens, hi - lo);
        short := hi - lo < |lens|;
      }
    }

    lemma {:induction false} NoneGave(segs: seq<bytes>, counts: seq<int>, offs: Option<seq<Offload>>, lo: nat,
                                      world: World)
      requires lo <= |counts| && (offs.Some? ==> |offs.value| == |counts|)
      ensures Gave(wire, segs, counts, offs, lo, lo, world)
    {
      assert AllWhole(segs, counts, offs, lo, lo);
    }

    /** Lays out and sends the packets a first pass found. */
    method SendPackets(segs: seq<bytes>, counts: seq<int>, offs: Option<seq<Offload>>, lo: nat, base: nat,
                       lens: seq<nat>,
                       iovN: nat, metas: seq<Offload>, kernel: Kernel, ghost world: World) returns (hi: nat)
      requires Scratch() && world.segs == segs && world.call == call && (offs.Some? ==> |offs.value| == |counts|)
      requires lo + |lens| <= |counts| && FoundPackets(gso, segs, counts, offs, lo, lo + |lens|, lens, metas, iovN)
      requires base == SegStart(counts, lo) && |lens| > 0
      modifies this`msgs, this`hdrs, this`chainIovs, this`gen, this`msgsChained
      modifies this`wire, this`sysCalls, this`ringFull, this`drops
      ensures Scratch() && lo <= hi <= lo + |lens| && Gave(old(wire), segs, counts, offs, lo, hi, world)
      ensures SegStart(counts, hi) <= |segs| && Said(Talk(kernel, old(sysCalls), |lens|, 0), old(sysCalls),
              old(drops), hi - lo)
    {
      hide Talk;
      ghost var all := lo + |lens|;
      ghost var ends := SegEnds(counts, lo, all);
      ghost var ps := GatherPackets(world.call, segs, counts, offs, lo, all);
      GatherCut(world.call, segs, counts, offs, lo, all, lens, metas, ends);
      GatherGood(world, segs, counts, offs, lo, all);
      var sent := SendChains(SegPieces(call, segs)[base..], lens, iovN, metas, kernel, world, ends, ps);
      hi := lo + sent;
      SegStartMono(counts, hi, all);
      GatherJoin(world.call, segs, counts, offs, lo, hi, all);
      assert ps[..sent] == GatherPackets(world.call, segs, counts, offs, lo, hi);
    }

    lemma {:induction false} GaveMore(wire0: seq<bytes>, wire1: seq<bytes>, segs: seq<bytes>, counts: seq<int>,
                                      offs: Option<seq<Offload>>,
                   mid: nat, hi: nat, world: World)
      requires (offs.Some? ==> |offs.value| == |counts|) && AllWhole(segs, counts, offs, 0, mid)
      requires var ps := GatherPackets(world.call, segs, counts, offs, 0, mid);
               AllPktsGood(world, ps) && wire1 == wire0 + OnWireAll(gso, world, ps)
      requires Gave(wire1, segs, counts, offs, mid, hi, world)
      ensures Gave(wire0, segs, counts, offs, 0, hi, world)
    {
      assert AllWhole(segs, counts, offs, 0, hi);
      GatherJoin(world.call, segs, counts, offs, 0, mid, hi);
      var a, b := GatherPackets(world.call, segs, counts, offs, 0, mid),
          GatherPackets(world.call, segs, counts, offs, mid, hi);
      OnWireJoin(gso, world, a, b);
      Assoc(wire0, OnWireAll(gso, world, a), OnWireAll(gso, world, b));
    }

    /**
     Sends packets given as runs of segments. What the kernel has seen is a
     prefix of them, each whole and each from this call's segments.
     */
    method TransmitGather(segs: seq<bytes>, counts: seq<int>, offs: Option<seq<Offload>>, kernel: Kernel)
      returns (sent: nat, err: Error, ghost short: bool, ghost bad: nat)
      requires Valid()
      modifies this`msgs, this`hdrs, this`chainIovs, this`gen, this`msgsChained, this`call
      modifies this`wire, this`sysCalls, this`ringFull, this`drops, this`rejected
      ensures Valid() && sent <= |counts|
      ensures (err == Closed <==> closed) && (err == Unsupported ==> offs.Some? && !gso)
      ensures closed || |counts| == 0 || (offs.Some? && (|offs.value| != |counts| || !gso)) ==>
                sent == 0 && wire == old(wire) && (err == Ok <==> !closed && |counts| == 0)
      ensures !closed && |counts| > 0 && (offs.Some? ==> |offs.value| == |counts| && gso) ==>
                && Gave(old(wire), segs, counts, offs, 0, sent, World(region[..], segs, call))
                && (err == BadLength ==> sent <= bad < |counts| && !Whole(segs, counts, offs, bad))
                && GatherFollowed(kernel, old(sysCalls), old(drops), segs, counts, offs, sent, short)
                && (if short then Stopped(kernel, old(sysCalls), sysCalls)
                    else if err == BadLength then sent == bad else sent == |counts|)
    {
      hide TxQueue.Gave, Whole, Stopped, ListOK, SpanInside, TxQueue.Scratch, TalkAll, GatherOffers;
      sent, err, short, bad := 0, Ok, false, 0;
      if closed {
        return 0, Closed, false, 0;
      }
      if |counts| == 0 {
        return;
      }
      if offs.Some? && |offs.value| != |counts| {
        return 0, BadLength, false, 0;
      }
      if offs.Some? && !gso {
        return 0, Unsupported, false, 0;
      }
      call := call + 1;
      var refused;
      sent, refused, short, bad := GatherAllBatches(segs, counts, offs, kernel, World(region[..], segs, call));
      TalkAllEnds(kernel, old(sysCalls), GatherOffers(gso, segs, counts, offs, 0));
      if refused {
        rejected := rejected + 1;
        err := BadLength;
      }
    }

    /** The packets accepted are those the kernel took of the batches offered. */
    ghost predicate GatherFollowed(kernel: Kernel, calls0: nat, drops0: nat, segs: seq<bytes>, counts: seq<int>,
                                   offs: Option<seq<Offload>>, sent: nat, short: bool)
      requires offs.Some? ==> |offs.value| == |counts|
      reads this`sysCalls, this`drops
    {
      var offers := GatherOffers(gso, segs, counts, offs, 0);
      var h := TalkAll(kernel, calls0, offers);
      Said(h, calls0, drops0, sent) && short == (h.taken < Total(offers))
    }

    /** The batches of one gather call. */
    method GatherAllBatches(segs: seq<bytes>, counts: seq<int>, offs: Option<seq<Offload>>, kernel: Kernel,
                            ghost world: World)
      returns (sent: nat, refused: bool, ghost short: bool, ghost bad: nat)
      requires Scratch() && world.segs == segs && world.call == call && (offs.Some? ==> |offs.value| == |counts|)
      modifies this`msgs, this`hdrs, this`chainIovs, this`gen, this`msgsChained
      modifies this`wire, this`sysCalls, this`ringFull, this`drops
      ensures Scratch() && sent <= |counts| && Gave(old(wire), segs, counts, offs, 0, sent, world)
      ensures GatherFollowed(kernel, old(sysCalls), old(drops), segs, counts, offs, sent, short)
      ensures refused ==> sent <= bad < |counts| && !Whole(segs, counts, offs, bad)
      ensures !short ==> if refused then sent == bad else sent == |counts|
    {
      hide Whole, TxQueue.Scratch, Talk, TalkAll, GatherOffers, BatchSize, Halfway, AllPktsGood, OnWireAll;
      hide GatherPackets, AllWhole;
      sent, refused, short, bad := 0, false, false, 0;
      var base, stop := 0, false;
      ghost var offers, done, h := GatherOffers(gso, segs, counts, offs, 0), [], Heard(0, 0, 0, 0);
      NoneGave(segs, counts, offs, 0, world);
      AtStart(kernel, sysCalls, offers);
      while sent < |counts| && !stop
        invariant Scratch() && sent <= |counts| && Gave(old(wire), segs, counts, offs, 0, sent, world)
        invariant base == SegStart(counts, sent) <= |segs|
        invariant refused ==> sent <= bad < |counts| && !Whole(segs, counts, offs, bad)
        invariant !short && refused ==> sent == bad
        invariant stop <==> refused || short
        invariant Said(h, old(sysCalls), old(drops), sent)
        invariant if stop then h == TalkAll(kernel, old(sysCalls), offers) && short == (h.taken < Total(offers))
                  else Halfway(kernel, old(sysCalls), offers, done, GatherOffers(gso, segs, counts, offs, sent), h)
        decreases !stop, |counts| - sent
      {
        ghost var wire1 := wire;
        var hi, less;
        hi, base, refused, less, bad := GatherBatch(segs, counts, offs, sent, base, kernel, world);
        GaveMore(old(wire), wire1, segs, counts, offs, sent, hi, world);
        stop, short := refused || less, less;
        h, done := OneMorePacked(kernel, old(sysCalls), segs, counts, offs, sent, hi, done, h, less, stop);
        sent := hi;
      }
      if !stop {
        NothingTorn(gso, segs, counts, offs, |counts|);
        AllDone(kernel, old(sysCalls), offers, done, h);
      }
    }

    lemma {:induction false} OneMorePacked(kernel: Kernel, calls0: nat, segs: seq<bytes>, counts: seq<int>,
                                           offs: Option<seq<Offload>>, mid: nat, hi: nat, done: seq<nat>, h: Heard,
                                           less: bool, stop: bool) returns (h1: Heard, done1: seq<nat>)
      requires mid <= hi <= |counts| && (offs.Some? ==> |offs.value| == |counts|)
      requires Halfway(kernel, calls0, GatherOffers(gso, segs, counts, offs, 0), done,
               GatherOffers(gso, segs, counts, offs, mid), h)
      requires var m := BatchSize(gso, segs, counts, offs, mid, 0, 0);
               && hi - mid == Talk(kernel, calls0 + h.calls, m, 0).taken && less == (hi - mid < m)
                  && (!less ==> hi == mid + m)
      requires (less ==> stop) && (stop && !less ==> !Whole(segs, counts, offs, hi))
      ensures var m := BatchSize(gso, segs, counts, offs, mid, 0, 0);
              h1 == Joined(h, Talk(kernel, calls0 + h.calls, m, 0))
      ensures var offers := GatherOffers(gso, segs, counts, offs, 0);
              if stop then h1 == TalkAll(kernel, calls0, offers) && less == (h1.taken < Total(offers))
              else Halfway(kernel, calls0, offers, done1, GatherOffers(gso, segs, counts, offs, hi), h1)
    {
      hide Talk, TalkAll, BatchSize, Whole, Halfway;
      var offers := GatherOffers(gso, segs, counts, offs, 0);
      var m := BatchSize(gso, segs, counts, offs, mid, 0, 0);
      var g := Talk(kernel, calls0 + h.calls, m, 0);
      h1, done1 := Joined(h, g), done;
      if m == 0 {
        NothingSaid(kernel, calls0 + h.calls);
        AllDone(kernel, calls0, offers, done, h);
      } else {
        GoOn(kernel, calls0, offers, done, m, GatherOffers(gso, segs, counts, offs, mid + m), h);
        done1 := done + [m];
        if stop && !less {
          NothingTorn(gso, segs, counts, offs, hi);
          AllDone(kernel, calls0, offers, done1, h1);
        }
      }
    }

    /**
     Sends frames. What is accepted is a prefix of the descriptors that cuts no
     packet, each packet gathered from this call's frames; the accepted frames wait
     on the pending list, which never exceeds its bound.
     */
    method Transmit(ds: seq<Desc>, offs: Option<seq<Offload>>, kernel: Kernel)
      returns (total: nat, err: Error, ghost short: bool, ghost bad: nat)
      requires Valid() && (offs.Some? ==> |offs.value| == |ds|)
      modifies this`msgs, this`iovs, this`iovs2, this`hdrs, this`chainIovs, this`gen, this`msgsChained, this`pending
      modifies this`wire, this`sysCalls, this`ringFull, this`drops, this`rejected
      ensures Valid() && total <= |ds| && Boundary(ds, total)
      ensures Took(old(wire), old(pending), ds, offs, 0, total, World(region[..], [], call))
      ensures if closed then err == Closed && total == 0 && !short else err == Ok || err == BadLength
      ensures !closed ==> Followed(kernel, old(sysCalls), old(drops), ds, offs, MAX_PENDING - |old(pending)|, total,
              short)
      ensures err == BadLength ==> total <= bad && Unfit(span, ds, offs, bad)
      ensures if short then Stopped(kernel, old(sysCalls), sysCalls) else err == BadLength ==> total == bad
      ensures err == Ok && !short ==>
                total == |ds| || |pending| == MAX_PENDING || NoRoom(ds, total, MAX_PENDING - |old(pending)|)
    {
      hide PacketsIn, OnWireAll, AllPktsGood, TxQueue.Took, Unfit, NoRoom, Stopped, ListOK, TxQueue.Scratch;
      hide Offers, TalkAll;
      total, err, short, bad := 0, if closed then Closed else Ok, false, 0;
      ghost var world := World(region[..], [], call);
      NoneTaken(ds, offs, 0, world);
      var room := MAX_PENDING - |pending|;
      NoneFollowed(kernel, ds, offs, room);
      if closed || |ds| == 0 {
        return;
      }
      if room == 0 {
        ringFull := ringFull + 1;
        return;
      }
      var refused;
      total, refused, short, bad := SendAny(ds, offs, room, kernel, world);
      TalkAllEnds(kernel, old(sysCalls), Offers(span, gso, ds, offs, 0, room));
      if refused {
        rejected := rejected + 1;
        err := BadLength;
      }
    }

    /** Chooses the path: chained if any descriptor continues, single frames otherwise. */
    method SendAny(ds: seq<Desc>, offs: Option<seq<Offload>>, room: nat, kernel: Kernel, ghost world: World)
      returns (total: nat, refused: bool, ghost short: bool, ghost bad: nat)
      requires Sendable() && SpanInside(span, |world.region|) && (offs.Some? ==> |offs.value| == |ds|)
      requires |pending| + room == MAX_PENDING
      modifies this`msgs, this`iovs, this`iovs2, this`hdrs, this`chainIovs, this`gen, this`msgsChained, this`pending
      modifies this`wire, this`sysCalls, this`ringFull, this`drops
      ensures Sendable() && total <= |ds| && Boundary(ds, total)
      ensures Took(old(wire), old(pending), ds, offs, 0, total, world)
      ensures Followed(kernel, old(sysCalls), old(drops), ds, offs, room, total, short)
      ensures refused ==> total <= bad && Unfit(span, ds, offs, bad)
      ensures !short && refused ==> total == bad
      ensures !refused && !short ==> total == |ds| || |pending| == MAX_PENDING || NoRoom(ds, total, room)
    {
      hide PacketsIn, OnWireAll, AllPktsGood, SpanInside, Unfit, NoRoom, TxQueue.Scratch, TxQueue.Followed;
      var chained := AnyContinued(ds);
      if chained {
        total, refused, short, bad := TransmitChained(ds, offs, room, kernel, world);
      } else {
        if msgsChained {
          WireOnePerPacket();
        }
        total, refused, short, bad := TransmitSingles(ds, offs, room, kernel, world);
      }
    }

    /** With no descriptors or no room nothing is offered. */
    lemma {:induction false} NoneFollowed(kernel: Kernel, ds: seq<Desc>, offs: Option<seq<Offload>>, room: nat)
      requires offs.Some? ==> |offs.value| == |ds|
      ensures ds == [] || room == 0 ==> Followed(kernel, sysCalls, drops, ds, offs, room, 0, false)
    {
      if ds == [] || room == 0 {
        NothingPast(span, gso, ds, offs, 0, room);
      }
    }

    static method AnyContinued(ds: seq<Desc>) returns (b: bool)
      ensures b <==> exists i :: 0 <= i < |ds| && ds[i].continued
    {
      for i := 0 to |ds|
        invariant forall j {:trigger ds[j]} :: 0 <= j < i ==> !ds[j].continued
      {
        if ds[i].continued {
          return true;
        }
      }
      return false;
    }

    /**
     Descriptors for up to `n` frames, which leave the end of the free list; pending and allocated
     stay within the bound.
     */
    method Alloc(n: int) returns (ds: seq<Desc>)
      requires Valid()
      modifies this`free
      ensures Valid()
      ensures ds == (if closed then [] else Handed(Taken(old(free), AllocCount(n, |pending|))))
      ensures free == (if closed then old(free) else Kept(old(free), AllocCount(n, |pending|)))
      ensures |ds| == if closed || n <= 0 then 0 else Min(Min(n, 4096 - |pending|), |old(free)|)
    {
      if closed {
        return [];
      }
      var k := AllocCount(n, |pending|);
      ds := Handed(Taken(free, k));
      free := Kept(free, k);
    }

    /** Puts the frame of each descriptor back, in order, where the list accepts it. */
    method Free(ds: seq<Desc>)
      requires Valid()
      modifies this`free
      ensures Valid() && free == GiveAll(g, checked, old(free), ds)
    {
      assert ds[..0] == [] && ds[..|ds|] == ds;
      for i := 0 to |ds|
        invariant Valid() && free == GiveAll(g, checked, old(free), ds[..i])
      {
        GiveOne(g, checked, old(free), ds, i);
        free := Pushed(g, checked, free, FrameStart(ds[i].addr, g.frameSize));
      }
    }

    /** Returns sent frames to the free list. */
    method Complete(max: int) returns (n: nat)
      requires Valid()
      modifies this`free, this`pending
      ensures Valid() && n == Handable(max, |old(pending)|) == (if max <= 0 then 0 else Min(max, |old(pending)|))
      ensures free == GiveAll(g, checked, old(free), old(pending)[..n]) && pending == old(pending)[n..]
    {
      n := Handable(max, |pending|);
      Free(pending[..n]);
      pending := pending[n..];
    }

    /** Moves the oldest pending descriptors to the end of `dst`. */
    method Reclaim(max: int, dst: seq<Desc>) returns (out: seq<Desc>)
      requires Valid()
      modifies this`pending
      ensures Valid()
      ensures var n := if max <= 0 then 0 else Min(max, |old(pending)|);
              n == Handable(max, |old(pending)|) && out == dst + old(pending)[..n] && pending == old(pending)[n..]
    {
      var n := Handable(max, |pending|);
      out := dst + pending[..n];
      pending := pending[n..];
    }

    /** A descriptor with the length its builder gave it. */
    ghost predicate Filled(blank: Desc, d: Desc, b: Built) {
      d.addr == blank.addr && d.continued == blank.continued && d.len == b.len && 0 < b.len <= span(blank.addr)
    }

    /** The bytes writable at different descriptors do not overlap. */
    ghost predicate Apart(ds: seq<Desc>) {
      forall i, j {:trigger ds[i], ds[j]} :: 0 <= i < j < |ds| ==>
        ds[i].addr + span(ds[i].addr) <= ds[j].addr || ds[j].addr + span(ds[j].addr) <= ds[i].addr
    }

    /** What the builder wrote is in the frame at `a`, as far as the frame goes. */
    ghost predicate Wrote(a: nat, b: Built)
      reads region
    {
      var k := Min(span(a), |b.data|);
      a + k <= region.Length && region[a..a + k] == b.data[..k]
    }

    ghost predicate WroteAll(ds: seq<Desc>, build: nat -> Built, n: nat)
      requires n <= |ds|
      reads region
    {
      forall i {:trigger ds[i]} :: 0 <= i < n ==> span(ds[i].addr) > 0 ==> Wrote(ds[i].addr, build(i))
    }

    /** Lets the builder fill frame `n`; the frames before it keep what they were given. */
    method FillFrame(ds0: seq<Desc>, n: nat, b: Built, ghost build: nat -> Built)
      requires SpanInside(span, region.Length) && n < |ds0| && b == build(n) && (Apart(ds0) ==> WroteAll(ds0, build, n))
      modifies region
      ensures Apart(ds0) ==> WroteAll(ds0, build, n + 1)
    {
      hide SpanInside;
      var a := ds0[n].addr;
      var frame := span(a);
      if frame > 0 {
        SpanAt(span, region.Length, a);
        ghost var was := region[..];
        var s := b.data[..Min(frame, |b.data|)];
        Blit(region, a, s);
        SpliceOwn(was, a, s);
        assert region[a..a + |s|] == region[..][a..a + |s|];
        if Apart(ds0) {
          forall i | 0 <= i < n && span(ds0[i].addr) > 0
            ensures Wrote(ds0[i].addr, build(i))
          {
            var x, k := ds0[i].addr, Min(span(ds0[i].addr), |build(i).data|);
            assert old(Wrote(x, build(i)));
            SpliceApart(was, a, s, x, x + k);
            assert region[x..x + k] == region[..][x..x + k] == was[x..x + k];
          }
        }
      }
    }

    /** Calls the builder for one frame after another, until it has nothing more or asks for too much. */
    method BuildFrames(ds0: seq<Desc>, build: nat -> Built) returns (ds: seq<Desc>, n: nat, bad: bool)
      requires SpanInside(span, region.Length) && forall i {:trigger ds0[i]} :: 0 <= i < |ds0| ==>
               span(ds0[i].addr) < TWO32
      modifies region
      ensures n <= |ds| == |ds0| && forall i {:trigger ds[i]} :: 0 <= i < |ds| ==> ds[i].addr == ds0[i].addr
      ensures forall i {:trigger ds[i]} :: 0 <= i < n ==> Filled(ds0[i], ds[i], build(i))
      ensures if bad then n < |ds| && !(0 <= build(n).len <= span(ds0[n].addr)) else n < |ds| ==> build(n).len == 0
      ensures Apart(ds0) ==> WroteAll(ds0, build, n)
    {
      hide SpanInside, TxQueue.WroteAll, TxQueue.Apart;
      ds, n, bad := ds0, 0, false;
      NoneWrote(ds0, build);
      while n < |ds|
        invariant n <= |ds| == |ds0|
        invariant forall i {:trigger ds[i]} :: 0 <= i < n ==>
                    ds[i].addr == ds0[i].addr && Filled(ds0[i], ds[i], build(i))
        invariant forall i {:trigger ds[i]} :: n <= i < |ds| ==> ds[i] == ds0[i]
        invariant Apart(ds0) ==> WroteAll(ds0, build, n)
      {
        var a, b := ds[n].addr, build(n);
        FillFrame(ds0, n, b, build);
        var frame := span(a);
        FewerWrote(ds0, build, n);
        if b.len == 0 {
          break;
        }
        if b.len < 0 || b.len > frame {
          bad := true;
          break;
        }
        ds := ds[n := ds[n].(len := b.len)];
        n := n + 1;
      }
    }

    lemma {:induction false} NoneWrote(ds: seq<Desc>, build: nat -> Built)
      ensures WroteAll(ds, build, 0)
    {
    }

    lemma {:induction false} FewerWrote(ds: seq<Desc>, build: nat -> Built, n: nat)
      requires n < |ds|
      ensures WroteAll(ds, build, n + 1) ==> WroteAll(ds, build, n)
    {
    }

    /** A frame on the wire is what the builder said and wrote, behind a blank virtio header where there is one. */
    ghost predicate Shows(w: bytes, b: Built) {
      var h, k := if gso then Marshal(NONE) else [], if 0 <= b.len then Min(b.len, |b.data|) else 0;
      |w| == |h| + b.len && |h| + k <= |w| && w[..|h|] == h && w[|h|..|h| + k] == b.data[..k]
    }

    lemma {:induction false} FrameShows(d0: Desc, d: Desc, b: Built, world: World)
      requires world.region == region[..] && Filled(d0, d, b) && Wrote(d0.addr, b)
      requires AllGood(world, [PieceOf(d)])
      ensures Shows(OnWire(gso, world, Pkt(NONE, [PieceOf(d)])), b)
    {
      hide Marshal, AllGood, PacketBytes;
      OnePiece(world, PieceOf(d));
      var m := Min(span(d.addr), |b.data|);
      assert region[d.addr..d.addr + m] == region[..][d.addr..d.addr + m];
      Placed(if gso then Marshal(NONE) else [], world.region, d.addr, d.len, m, b.data);
    }

    lemma {:induction false} OnePiece(world: World, v: Iov)
      requires AllGood(world, [v])
      ensures Good(world, v) && PacketBytes(world, [v]) == PieceBytes(world, v)
    {
      assert [v][0] == v && [v][1..] == [];
    }

    /** The frames added to the wire since it was `wire0` are the first the builder made. */
    ghost predicate ShowsAll(wire0: seq<bytes>, build: nat -> Built, sent: nat)
      reads this`wire
    {
      |wire| == |wire0| + sent && forall i {:trigger build(i)} :: 0 <= i < sent ==> Shows(wire[|wire0| + i], build(i))
    }

    lemma {:induction false} AllShow(wire0: seq<bytes>, pending0: seq<Desc>, ds0: seq<Desc>, ds: seq<Desc>,
                                     build: nat -> Built, n: nat, sent: nat, world: World)
      requires sent <= n <= |ds| == |ds0| && world.region == region[..] && WroteAll(ds0, build, n)
      requires forall i {:trigger ds[i]} :: 0 <= i < n ==> Filled(ds0[i], ds[i], build(i)) && !ds[i].continued
      requires Took(wire0, pending0, ds[..n], None, 0, sent, world)
      ensures ShowsAll(wire0, build, sent)
    {
      hide TxQueue.Shows, TxQueue.Wrote, OnWire, OnWireAll, AllGood, PacketsIn;
      var ps := PacketsIn(ds[..n], None, 0, sent);
      SinglesAre(ds[..n], None, 0, sent);
      forall i | 0 <= i < sent
        ensures Shows(wire[|wire0| + i], build(i))
      {
        assert ps[i].pieces == [PieceOf(ds[..n][i])] && ps[i].off == MetaAt(None, i);
        assert ps[i] == Pkt(NONE, [PieceOf(ds[i])]);
        OnWireAt(gso, world, ps, i);
        assert Filled(ds0[i], ds[i], build(i)) && Wrote(ds0[i].addr, build(i));
        FrameShows(ds0[i], ds[i], build(i), world);
      }
    }

    /**
     What the builder was asked for: `n` frames, until it had no more, there were no more, or it
     asked for too much.
     */
    ghost predicate Asked(blank: seq<Desc>, build: nat -> Built, ds: seq<Desc>, n: nat, bad: bool) {
      && n <= |ds| == |blank| && (forall i {:trigger ds[i]} :: 0 <= i < |ds| ==> ds[i].addr == blank[i].addr)
      && (forall i {:trigger ds[i]} :: 0 <= i < n ==> Filled(blank[i], ds[i], build(i)))
      && (bad <==> n < |blank| && !(0 <= build(n).len <= span(blank[n].addr)))
      && (!bad && n < |blank| ==> build(n).len == 0)
    }

    /** `n` frames were handed over; the kernel's answers say how many of them it took. */
    ghost predicate HandedOver(kernel: Kernel, calls0: nat, drops0: nat, n: nat, sent: nat)
      reads this`sysCalls, this`drops
    {
      && Said(TalkAll(kernel, calls0, Batches(n)), calls0, drops0, sent)
      && (sent < n ==> Stopped(kernel, calls0, sysCalls))
    }

    /** What a call of `SendFunc` that took the frames `blank` leaves behind. */
    ghost predicate Cycled(was: Before, blank: seq<Desc>, build: nat -> Built, kernel: Kernel, sent: nat, err: Error,
                           ds: seq<Desc>, n: nat)
      requires IsPow2(g.frameSize)
      reads this`wire, this`pending, this`free, this`call, this`sysCalls, this`drops, region
    {
      && (err == Ok || err == BadLength) && Asked(blank, build, ds, n, err == BadLength) && sent <= n
      && (if err == BadLength then sent == 0 else HandedOver(kernel, was.calls, was.drops, n, sent))
      && Took(was.wire, was.pending, ds[..n], None, 0, sent, World(region[..], [], call))
      && free == GiveAll(g, checked, was.free, if err == BadLength then ds else ds[n..] + ds[sent..n])
      && (Apart(blank) ==> WroteAll(blank, build, n) && ShowsAll(was.wire, build, sent))
    }

    method SendBuilt(blank: seq<Desc>, build: nat -> Built, kernel: Kernel)
      returns (sent: nat, err: Error, ghost ds: seq<Desc>, ghost n: nat)
      requires Valid() && !closed && |pending| + |blank| <= MAX_PENDING
      requires forall i {:trigger blank[i]} :: 0 <= i < |blank| ==> span(blank[i].addr) < TWO32 && !blank[i].continued
      modifies this`msgs, this`iovs, this`iovs2, this`hdrs, this`chainIovs, this`gen, this`msgsChained, this`pending,
               this`free
      modifies this`wire, this`sysCalls, this`ringFull, this`drops, this`rejected, region
      ensures Valid() && Cycled(old(Now()), blank, build, kernel, sent, err, ds, n)
    {
      hide TxQueue.Scratch, ListOK, GiveAll, PacketsIn, OnWireAll, AllPktsGood, SpanInside, TxQueue.Apart;
      hide TxQueue.WroteAll;
      hide TxQueue.ShowsAll, Boundary, TxQueue.HandedOver;
      var built, k, bad := BuildFrames(blank, build);
      ds, n, sent := built, k, 0;
      if bad {
        Free(built);
        err := BadLength;
        NoneTaken(ds[..n], None, 0, World(region[..], [], call));
        NoneShown(build);
      } else {
        err := Ok;
        sent := SendKept(built, k, kernel);
        if Apart(blank) {
          AllShow(old(wire), old(pending), blank, ds, build, n, sent, World(region[..], [], call));
        }
      }
    }

    /** What a call finds. */
    ghost function Now(): Before
      reads this`wire, this`pending, this`free, this`sysCalls, this`drops
    {
      Before(wire, pending, free, sysCalls, drops)
    }

    /** Gives back what the builder did not use, sends the rest, and gives back what the kernel did not take. */
    method SendKept(ds: seq<Desc>, k: nat, kernel: Kernel) returns (sent: nat)
      requires Valid() && !closed && k <= |ds| && |pending| + k <= MAX_PENDING
      requires forall i {:trigger ds[i]} :: 0 <= i < k ==> !ds[i].continued && DescFits(span, ds[i])
      modifies this`msgs, this`iovs, this`iovs2, this`hdrs, this`chainIovs, this`gen, this`msgsChained, this`pending,
               this`free
      modifies this`wire, this`sysCalls, this`ringFull, this`drops, this`rejected
      ensures Valid() && sent <= k && Took(old(wire), old(pending), ds[..k], None, 0, sent, World(region[..], [], call))
      ensures free == GiveAll(g, checked, old(free), ds[k..] + ds[sent..k])
      ensures HandedOver(kernel, old(sysCalls), old(drops), k, sent)
    {
      hide TxQueue.Scratch, ListOK, GiveAll, PacketsIn, OnWireAll, AllPktsGood, SpanInside, Boundary;
      hide TxQueue.Took, Unfit;
      hide Stopped, NoRoom, Offers, TalkAll, Total, Batches;
      ghost var room := MAX_PENDING - |pending|;
      Free(ds[k..]);
      var ignored;
      ghost var short, unfit;
      sent, ignored, short, unfit := Transmit(ds[..k], None, kernel);
      SinglesAre(ds[..k], None, 0, sent);
      SinglesOffered(span, gso, ds[..k], None, 0, room);
      Free(ds[sent..k]);
      GiveBoth(g, checked, old(free), ds[k..], ds[sent..k]);
    }

    lemma {:induction false} CycledNone(build: nat -> Built, kernel: Kernel)
      requires IsPow2(g.frameSize)
      ensures Cycled(Now(), [], build, kernel, 0, Ok, [], 0)
    {
      hide GiveAll, PacketsIn, OnWireAll, AllPktsGood, TxQueue.ShowsAll;
      var none: seq<Desc> := [];
      NoneTaken(none, None, 0, World(region[..], [], call));
      NoneShown(build);
      NoneGiven(free);
      assert none[0..] + none[0..0] == none && none[..0] == none;
    }

    lemma {:induction false} NoneGiven(frames: seq<nat>)
      requires IsPow2(g.frameSize)
      ensures GiveAll(g, checked, frames, []) == frames
    {
    }

    lemma {:induction false} NoneShown(build: nat -> Built)
      ensures ShowsAll(wire, build, 0)
    {
    }

    /** The whole cycle in one call: take back what was sent, take frames, build, send, give back the rest. */
    method SendFunc(count: int, build: nat -> Built, kernel: Kernel)
      returns (sent: nat, err: Error, ghost ds: seq<Desc>, ghost n: nat)
      requires Valid() && forall a: nat :: span(a) < TWO32
      modifies this`msgs, this`iovs, this`iovs2, this`hdrs, this`chainIovs, this`gen, this`msgsChained, this`pending,
               this`free
      modifies this`wire, this`sysCalls, this`ringFull, this`drops, this`rejected, region
      ensures Valid()
      ensures closed ==> err == Closed && sent == 0 && free == old(free) && pending == old(pending) && wire == old(wire)
      ensures !closed ==>
                Cycled(Ready(g, checked, old(Now()), count), Blank(g, checked, old(Now()), count), build, kernel,
                   sent, err, ds, n)
    {
      hide TxQueue.Scratch, ListOK, GiveAll, SpanInside, TxQueue.Cycled;
      sent, err, ds, n := 0, Closed, [], 0;
      if !closed {
        var done := Complete(count + |pending|);
        var blank := Alloc(count);
        if |blank| == 0 {
          err := Ok;
          CycledNone(build, kernel);
        } else {
          sent, err, ds, n := SendBuilt(blank, build, kernel);
        }
      }
    }
  }

  /** Descriptors of whole frames, past the headroom. */
  function Handed(frames: seq<nat>): (ds: seq<Desc>)
    ensures |ds| == |frames| && forall i :: 0 <= i < |ds| ==> ds[i] == Desc(frames[i] + HEADROOM, 0, false)
  {
    seq(|frames|, i requires 0 <= i < |frames| => Desc(frames[i] + HEADROOM, 0, false))
  }

  function AllocCount(n: int, pending: nat): int
  {
    if n <= MAX_PENDING - pending then n else MAX_PENDING - pending
  }

  function Handable(max: int, pending: nat): (n: nat)
    ensures n <= pending
  {
    if max <= 0 then 0 else Min(max, pending)
  }

  ghost function AllIovs(gso: bool, ps: seq<Pkt>): (r: seq<seq<Iov>>)
    ensures |r| == |ps|
  {
    if ps == [] then []
    else AllIovs(gso, ps[..|ps| - 1]) + [IovsFor(gso, |ps| - 1, ps[|ps| - 1].pieces)]
  }

  ghost function AllHdrs(ps: seq<Pkt>): (r: seq<bytes>)
    ensures |r| == |ps|
  {
    if ps == [] then [] else AllHdrs(ps[..|ps| - 1]) + [Marshal(ps[|ps| - 1].off)]
  }

  lemma {:induction false} AllAt(gso: bool, ps: seq<Pkt>, m: nat)
    requires m < |ps|
    ensures AllIovs(gso, ps)[m] == IovsFor(gso, m, ps[m].pieces) && AllHdrs(ps)[m] == Marshal(ps[m].off)
  {
    if m < |ps| - 1 {
      AllAt(gso, ps[..|ps| - 1], m);
    }
  }

  ghost function Concat(vss: seq<seq<Iov>>, m: nat): seq<Iov>
    requires m <= |vss|
  {
    if m == 0 then [] else Concat(vss, m - 1) + vss[m - 1]
  }

  lemma {:induction false} ConcatMono(vss: seq<seq<Iov>>, m: nat, n: nat)
    requires m <= n <= |vss|
    ensures Concat(vss, m) <= Concat(vss, n)
    decreases n
  {
    if m < n {
      ConcatMono(vss, m, n - 1);
    }
  }

  /** A run that follows a prefix is found after it. */
  lemma {:induction false} FoundAfter<T>(x: seq<T>, y: seq<T>, c: seq<T>)
    requires x + y <= c
    ensures |x| + |y| <= |c| && c[|x|..|x| + |y|] == y
  {
    assert c[..|x| + |y|] == x + y;
  }

  lemma {:induction false} ChainFound(vss: seq<seq<Iov>>, m: nat, chain: seq<Iov>)
    requires m < |vss| && Concat(vss, |vss|) <= chain
    ensures Slice(chain, |Concat(vss, m)|, |vss[m]|) == Some(vss[m])
  {
    ConcatMono(vss, m + 1, |vss|);
    FoundAfter(Concat(vss, m), vss[m], chain);
  }

  lemma {:induction false} Extend<T>(x: seq<T>, y: seq<T>, c: seq<T>)
    requires |x| + |y| <= |c| && c[..|x|] == x && c[|x|..|x| + |y|] == y
    ensures x + y <= c
  {
    assert c[..|x| + |y|] == c[..|x|] + c[|x|..|x| + |y|];
  }

  lemma {:induction false} NextIovs(gso: bool, pieces: seq<Iov>, lens: seq<nat>, ends: seq<nat>, metas: seq<Offload>,
                                    ps: seq<Pkt>,
                 m: nat, d0: nat)
    requires CutInto(pieces, lens, ends, metas, ps) && m < |ps| && d0 == Begin(0, ends, m)
    ensures d0 + lens[m] == ends[m] <= |pieces| && IovsFor(gso, m, pieces[d0..d0 + lens[m]]) == AllIovs(gso, ps)[m]
    ensures Marshal(metas[m]) == AllHdrs(ps)[m]
  {
    assert ps[m].pieces == pieces[d0..d0 + lens[m]];
    AllAt(gso, ps, m);
  }

  /** The iovecs counted in the first pass are the iovecs laid out in the second. */
  lemma {:induction false} RoomFor(gso: bool, pieces: seq<Iov>, lens: seq<nat>, ends: seq<nat>, metas: seq<Offload>,
                                   ps: seq<Pkt>, m: nat)
    requires CutInto(pieces, lens, ends, metas, ps) && m <= |ps|
    ensures |Concat(AllIovs(gso, ps), m)| == Begin(0, ends, m) + (if gso then m else 0)
  {
    if m > 0 {
      RoomFor(gso, pieces, lens, ends, metas, ps, m - 1);
      AllAt(gso, ps, m - 1);
      assert |ps[m - 1].pieces| == ends[m - 1] - Begin(0, ends, m - 1);
    }
  }

  lemma {:induction false} Longer<T>(was: seq<T>, s: seq<T>, lo: nat, hi: nat)
    requires lo <= hi <= |s|
    ensures was + s[..lo] + s[lo..hi] == was + s[..hi]
  {
  }
}
