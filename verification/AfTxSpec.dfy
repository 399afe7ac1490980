/**
 What the kernel reads when it is handed messages: a message points at iovecs, and
 an iovec points at bytes. Pointers are kept as such, with what they point into,
 so that one left over from an earlier call is seen to be one.
 */
module AfTxSpec {
  import opened Words
  import opened Bytes
  import opened Offloads
  import opened AfFrames
  import opened AfKernel

  const MAX_CHAIN: nat := 1023
  const IOV_BUDGET: nat := 2048
  const MAX_PENDING: nat := 4096

  datatype Option<T> = None | Some(value: T)

  /** Into the frame memory, into the header scratch, or into a segment a caller passed in call `call`. */
  datatype Ptr = Null | Region(addr: nat) | Header(i: nat) | Caller(call: nat, seg: nat)

  datatype Iov = Iov(base: Ptr, len: nat)

  /** A pointer to an iovec: in the one-per-message array, the pairs, or allocation `gen` of the chains. */
  datatype IovRef = Nowhere | One(i: nat) | Pair(i: nat) | Chain(gen: nat, i: nat)

  datatype Msg = Msg(iov: IovRef, n: nat)

  /** The queue's scratch, as the kernel would find it. */
  datatype Wiring = Wiring(iovs: seq<Iov>, iovs2: seq<Iov>, hdrs: seq<bytes>, chain: seq<Iov>, gen: nat)

  /** What a pointer of this call may reach besides the scratch. */
  datatype World = World(region: bytes, segs: seq<bytes>, call: nat)

  function Slice<T>(s: seq<T>, i: nat, n: nat): Option<seq<T>> {
    if i + n <= |s| then Some(s[i..i + n]) else None
  }

  function IovsOf(w: Wiring, m: Msg): Option<seq<Iov>> {
    match m.iov
    case Nowhere => None
    case One(i) => Slice(w.iovs, i, m.n)
    case Pair(i) => Slice(w.iovs2, i, m.n)
    case Chain(gen, i) => if gen == w.gen then Slice(w.chain, i, m.n) else None
  }

  /** The bytes behind one iovec, if it is good in this call. */
  function Load(hdrs: seq<bytes>, world: World, v: Iov): Option<bytes> {
    match v.base
    case Null => None
    case Region(a) => Slice(world.region, a, v.len)
    case Header(i) => if i < |hdrs| then Slice(hdrs[i], 0, v.len) else None
    case Caller(call, j) =>
      if call == world.call && j < |world.segs| then Slice(world.segs[j], 0, v.len) else None
  }

  function LoadAll(hdrs: seq<bytes>, world: World, vs: seq<Iov>): Option<bytes> {
    if vs == [] then Some([])
    else
      var a, b := Load(hdrs, world, vs[0]), LoadAll(hdrs, world, vs[1..]);
      if a.Some? && b.Some? then Some(a.value + b.value) else None
  }

  /** What the kernel gathers for one message. */
  function Gathered(w: Wiring, world: World, m: Msg): Option<bytes> {
    var vs := IovsOf(w, m);
    if vs.Some? then LoadAll(w.hdrs, world, vs.value) else None
  }

  // ----------------------------------------------------- what it should gather

  /** One packet to send: its metadata and the pieces it is made of. */
  datatype Pkt = Pkt(off: Offload, pieces: seq<Iov>)

  /** A piece names bytes that are there in this call. */
  predicate Good(world: World, v: Iov) {
    match v.base
    case Region(a) => a + v.len <= |world.region|
    case Caller(call, j) => call == world.call && j < |world.segs| && v.len == |world.segs[j]|
    case _ => false
  }

  function PieceBytes(world: World, v: Iov): bytes
    requires Good(world, v)
  {
    match v.base
    case Region(a) => world.region[a..a + v.len]
    case Caller(_, j) => world.segs[j]
  }

  ghost predicate AllGood(world: World, vs: seq<Iov>) {
    forall i {:trigger vs[i]} :: 0 <= i < |vs| ==> Good(world, vs[i])
  }

  function PacketBytes(world: World, vs: seq<Iov>): bytes
    requires AllGood(world, vs)
  {
    if vs == [] then [] else PieceBytes(world, vs[0]) + PacketBytes(world, vs[1..])
  }

  /** What the wire should see: the packet, behind its virtio header where the queue sends one. */
  function OnWire(gso: bool, world: World, p: Pkt): bytes
    requires AllGood(world, p.pieces)
  {
    (if gso then Marshal(p.off) else []) + PacketBytes(world, p.pieces)
  }

  ghost predicate AllPktsGood(world: World, ps: seq<Pkt>) {
    forall i {:trigger ps[i]} :: 0 <= i < |ps| ==> AllGood(world, ps[i].pieces)
  }

  function OnWireAll(gso: bool, world: World, ps: seq<Pkt>): (r: seq<bytes>)
    requires AllPktsGood(world, ps)
    ensures |r| == |ps|
  {
    if ps == [] then []
    else
      assert AllPktsGood(world, ps[..|ps| - 1]);
      OnWireAll(gso, world, ps[..|ps| - 1]) + [OnWire(gso, world, ps[|ps| - 1])]
  }

  lemma {:induction false} OnWireAt(gso: bool, world: World, ps: seq<Pkt>, i: nat)
    requires AllPktsGood(world, ps) && i < |ps|
    ensures OnWireAll(gso, world, ps)[i] == OnWire(gso, world, ps[i])
    decreases |ps|
  {
    if i < |ps| - 1 {
      OnWireAt(gso, world, ps[..|ps| - 1], i);
    }
  }

  lemma {:induction false} OnWirePrefix(gso: bool, world: World, ps: seq<Pkt>, n: nat)
    requires AllPktsGood(world, ps) && n <= |ps|
    ensures AllPktsGood(world, ps[..n]) && OnWireAll(gso, world, ps[..n]) == OnWireAll(gso, world, ps)[..n]
    decreases |ps|
  {
    if n < |ps| {
      var front := ps[..|ps| - 1];
      OnWirePrefix(gso, world, front, n);
      assert front[..n] == ps[..n];
    } else {
      assert ps[..n] == ps;
    }
  }

  lemma {:induction false} OnWireJoin(gso: bool, world: World, a: seq<Pkt>, b: seq<Pkt>)
    requires AllPktsGood(world, a) && AllPktsGood(world, b)
    ensures AllPktsGood(world, a + b)
    ensures OnWireAll(gso, world, a + b) == OnWireAll(gso, world, a) + OnWireAll(gso, world, b)
    decreases |b|
  {
    if b == [] {
      assert a + b == a;
    } else {
      OnWireJoin(gso, world, a, b[..|b| - 1]);
      assert (a + b)[..|a + b| - 1] == a + b[..|b| - 1];
    }
  }

  /** The iovecs of message `m`: the header's in front, where there is one. */
  function IovsFor(gso: bool, m: nat, pieces: seq<Iov>): seq<Iov> {
    (if gso then [Iov(Header(m), HDR_LEN)] else []) + pieces
  }

  lemma {:induction false} LoadsPieces(hdrs: seq<bytes>, world: World, vs: seq<Iov>)
    requires AllGood(world, vs)
    ensures LoadAll(hdrs, world, vs) == Some(PacketBytes(world, vs))
  {
    if vs != [] {
      LoadsPieces(hdrs, world, vs[1..]);
      assert Load(hdrs, world, vs[0]) == Some(PieceBytes(world, vs[0])) by {
        if vs[0].base.Caller? {
          var s := world.segs[vs[0].base.seg];
          assert s[0..0 + |s|] == s;
        }
      }
    }
  }

  /** Iovecs laid out for a packet, with its header in place, gather just that packet. */
  lemma {:induction false} GathersPacket(gso: bool, w: Wiring, world: World, m: Msg, k: nat, p: Pkt)
    requires IovsOf(w, m) == Some(IovsFor(gso, k, p.pieces)) && AllGood(world, p.pieces)
    requires gso ==> k < |w.hdrs| && w.hdrs[k] == Marshal(p.off)
    ensures Gathered(w, world, m) == Some(OnWire(gso, world, p))
  {
    LoadsPieces(w.hdrs, world, p.pieces);
    var vs := IovsFor(gso, k, p.pieces);
    if gso {
      assert vs[1..] == p.pieces && w.hdrs[k][0..0 + HDR_LEN] == Marshal(p.off);
      assert Load(w.hdrs, world, vs[0]) == Some(Marshal(p.off));
    } else {
      assert vs == p.pieces && [] + PacketBytes(world, p.pieces) == PacketBytes(world, p.pieces);
    }
  }

  /** The first messages gather just the bytes `want`, in order. */
  ghost predicate StandFor(w: Wiring, world: World, msgs: seq<Msg>, want: seq<bytes>) {
    |want| <= |msgs| && forall i :: 0 <= i < |want| ==> Gathered(w, world, msgs[i]) == Some(want[i])
  }

  // --------------------------------------------------------------- checking

  /** Why an offload's offsets do not fit `n` bytes; `true` when they do. */
  predicate OffloadFits(o: Offload, n: nat) {
    && (o.NeedsCsum() ==> o.csumStart <= n && o.csumOff <= n - o.csumStart && o.csumOff + 2 <= n - o.csumStart)
    && (o.Segmented() ==> o.gsoSize != 0 && o.hdrLen <= n)
  }

  /** In the header's own terms: the checksum field, where one is asked for, and the headers to copy lie inside. */
  lemma {:induction false} OffloadFitsIff(o: Offload, n: nat)
    ensures OffloadFits(o, n) <==>
              && (o.flags % 2 == 1 ==> o.csumStart + o.csumOff + 2 <= n)
              && (o.gsoType != 0 && o.gsoType != 0x80 ==> o.gsoSize > 0 && o.hdrLen <= n)
  {
    SegmentedMeans(o);
  }

  function PieceOf(d: Desc): Iov { Iov(Region(d.addr), d.len) }

  function PiecesOf(ds: seq<Desc>): (vs: seq<Iov>)
    ensures |vs| == |ds| && forall i {:trigger vs[i]} :: 0 <= i < |ds| ==> vs[i] == PieceOf(ds[i])
  {
    seq(|ds|, i requires 0 <= i < |ds| => PieceOf(ds[i]))
  }

  /** Metadata of descriptor `i`: none when the call carries none. */
  function MetaAt(offs: Option<seq<Offload>>, i: nat): Offload
    requires offs.Some? ==> i < |offs.value|
  {
    if offs.Some? then offs.value[i] else NONE
  }

  /** How many descriptors the packet at `at` has; none when it runs off the end or is too long. */
  function ChainLen(ds: seq<Desc>, at: nat, n: nat): Option<nat>
    requires at + n <= |ds|
    decreases |ds| - at - n
  {
    if at + n == |ds| then None
    else if ds[at + n].continued then ChainLen(ds, at, n + 1)
    else if n + 1 > MAX_CHAIN then None
    else Some(n + 1)
  }

  /** Where the last packet of `lo..hi` starts. */
  function LastStart(ds: seq<Desc>, lo: nat, hi: nat): (cut: nat)
    requires lo < hi <= |ds|
    ensures lo <= cut < hi
  {
    if hi - 1 == lo || !ds[hi - 2].continued then hi - 1 else LastStart(ds, lo, hi - 1)
  }

  /** The packets of descriptors `lo..hi`, cut at every descriptor that does not continue. */
  function PacketsIn(ds: seq<Desc>, offs: Option<seq<Offload>>, lo: nat, hi: nat): (ps: seq<Pkt>)
    requires lo <= hi <= |ds| && (offs.Some? ==> |offs.value| == |ds|)
    decreases hi
  {
    if lo == hi then []
    else
      var cut := LastStart(ds, lo, hi);
      PacketsIn(ds, offs, lo, cut) + [Pkt(MetaAt(offs, cut), PiecesOf(ds[cut..hi]))]
  }

  /** A place where no packet is cut in two. */
  predicate Boundary(ds: seq<Desc>, k: nat)
    requires k <= |ds|
  {
    k == 0 || !ds[k - 1].continued
  }

  /** Descriptors `at..at + n` are one whole packet. */
  ghost predicate OnePacket(ds: seq<Desc>, at: nat, n: nat) {
    && 0 < n && at + n <= |ds| && !ds[at + n - 1].continued
    && forall i {:trigger ds[i]} :: at <= i < at + n - 1 ==> ds[i].continued
  }

  lemma {:induction false} ChainLenIs(ds: seq<Desc>, at: nat, n: nat)
    requires at + n <= |ds| && forall i {:trigger ds[i]} :: at <= i < at + n ==> ds[i].continued
    ensures var r := ChainLen(ds, at, n);
            r.Some? ==> n < r.value <= MAX_CHAIN && OnePacket(ds, at, r.value)
    decreases |ds| - at - n
  {
    if at + n < |ds| && ds[at + n].continued {
      ChainLenIs(ds, at, n + 1);
    }
  }

  lemma {:induction false} LastStartIs(ds: seq<Desc>, lo: nat, at: nat, n: nat, hi: nat)
    requires lo <= at < hi <= at + n && OnePacket(ds, at, n) && (lo == at || Boundary(ds, at))
    ensures LastStart(ds, lo, hi) == at
    decreases hi
  {
    if hi - 1 > at {
      assert ds[hi - 2].continued;
      LastStartIs(ds, lo, at, n, hi - 1);
    }
  }

  /** One more whole packet is one more packet. */
  lemma {:induction false} NextPacket(ds: seq<Desc>, offs: Option<seq<Offload>>, lo: nat, at: nat, n: nat)
    requires lo <= at && OnePacket(ds, at, n) && (lo == at || Boundary(ds, at)) && (offs.Some? ==> |offs.value| == |ds|)
    ensures PacketsIn(ds, offs, lo, at + n)
            == PacketsIn(ds, offs, lo, at) + [Pkt(MetaAt(offs, at), PiecesOf(ds[at..at + n]))]
  {
    LastStartIs(ds, lo, at, n, at + n);
  }

  /** Packets up to a boundary and packets from it on are all the packets. */
  lemma {:induction false} PacketsJoin(ds: seq<Desc>, offs: Option<seq<Offload>>, lo: nat, mid: nat, hi: nat)
    requires lo <= mid <= hi <= |ds| && (lo == mid || Boundary(ds, mid)) && (offs.Some? ==> |offs.value| == |ds|)
    ensures PacketsIn(ds, offs, lo, hi) == PacketsIn(ds, offs, lo, mid) + PacketsIn(ds, offs, mid, hi)
    decreases hi
  {
    if mid < hi {
      SameStart(ds, lo, mid, hi);
      var cut := LastStart(ds, lo, hi);
      PacketsJoin(ds, offs, lo, mid, cut);
    }
  }

  lemma {:induction false} SameStart(ds: seq<Desc>, lo: nat, mid: nat, hi: nat)
    requires lo <= mid < hi <= |ds| && (lo == mid || Boundary(ds, mid))
    ensures LastStart(ds, lo, hi) == LastStart(ds, mid, hi)
    decreases hi
  {
    if hi - 1 > mid && ds[hi - 2].continued {
      SameStart(ds, lo, mid, hi - 1);
    }
  }

  /** Descriptors none of which continues are a packet each. */
  lemma {:induction false} SinglesAre(ds: seq<Desc>, offs: Option<seq<Offload>>, lo: nat, hi: nat)
    requires lo <= hi <= |ds| && (offs.Some? ==> |offs.value| == |ds|)
    requires forall i {:trigger ds[i]} :: 0 <= i < |ds| ==> !ds[i].continued
    ensures var ps := PacketsIn(ds, offs, lo, hi);
            && |ps| == hi - lo
            && forall i {:trigger ps[i]} :: 0 <= i < hi - lo ==>
                 ps[i].off == MetaAt(offs, lo + i) && ps[i].pieces == [PieceOf(ds[lo + i])]
    decreases hi
  {
    hide MetaAt;
    if lo < hi {
      assert OnePacket(ds, hi - 1, 1);
      NextPacket(ds, offs, lo, hi - 1, 1);
      SinglesAre(ds, offs, lo, hi - 1);
      assert PiecesOf(ds[hi - 1..hi]) == [PieceOf(ds[hi - 1])];
    }
  }

  // ------------------------------------------------------- cutting a batch

  /** Where run `j` begins: runs follow one another from `lo`, and `ends` says where each ends. */
  function Begin(lo: nat, ends: seq<nat>, j: nat): nat
    requires j <= |ends|
  {
    if j == 0 then lo else ends[j - 1]
  }

  /** The packets are consecutive runs of the pieces, `lens` their lengths. */
  ghost predicate CutInto(pieces: seq<Iov>, lens: seq<nat>, ends: seq<nat>, metas: seq<Offload>, ps: seq<Pkt>) {
    && |ps| == |lens| == |ends| == |metas|
    && forall m {:trigger ps[m]} :: 0 <= m < |ps| ==>
         && lens[m] == ends[m] - Begin(0, ends, m) && ends[m] <= |pieces|
         && ps[m].off == metas[m] && ps[m].pieces == pieces[Begin(0, ends, m)..ends[m]]
  }

  /** The sum of a packet's lengths, as the code's 32-bit counter has it. */
  function Length(ds: seq<Desc>, at: nat, n: nat): u32
    requires at + n <= |ds|
  {
    if n == 0 then 0 else Wrap32(Length(ds, at, n - 1) + ds[at + n - 1].len)
  }

  /** One packet's frames and metadata are fit to send. */
  ghost predicate Fit(span: nat -> nat, ds: seq<Desc>, offs: Option<seq<Offload>>, at: nat, n: nat)
    requires at + n <= |ds| && n > 0 && (offs.Some? ==> |offs.value| == |ds|)
  {
    && (forall i {:trigger ds[i]} :: at <= i < at + n ==> DescFits(span, ds[i]))
    && (offs.Some? ==>
          && (forall i {:trigger offs.value[i]} :: at < i < at + n ==> offs.value[i] == NONE)
          && OffloadFits(offs.value[at], Length(ds, at, n)))
  }

  /** No packet can be sent from `at` on: it does not end, has too many frames, or is unfit. */
  ghost predicate Unfit(span: nat -> nat, ds: seq<Desc>, offs: Option<seq<Offload>>, at: nat)
    requires (offs.Some? ==> |offs.value| == |ds|)
  {
    && at < |ds|
    && var n := ChainLen(ds, at, 0);
       n.Some? ==> at + n.value <= |ds| && n.value > 0 && !Fit(span, ds, offs, at, n.value)
  }

  /** Run `j`, of those that end at `ends` from `lo` on, is a whole packet with `metas[j]` its metadata. */
  ghost predicate Run(ds: seq<Desc>, offs: Option<seq<Offload>>, lo: nat, ends: seq<nat>, metas: seq<Offload>, j: nat)
    requires offs.Some? ==> |offs.value| == |ds|
  {
    && j < |ends| == |metas| && Begin(lo, ends, j) < ends[j] <= |ds|
    && OnePacket(ds, Begin(lo, ends, j), ends[j] - Begin(lo, ends, j))
    && metas[j] == MetaAt(offs, Begin(lo, ends, j))
  }

  ghost predicate Runs(ds: seq<Desc>, offs: Option<seq<Offload>>, lo: nat, ends: seq<nat>, metas: seq<Offload>)
    requires offs.Some? ==> |offs.value| == |ds|
  {
    |ends| == |metas| && lo <= |ds| && forall j :: 0 <= j < |ends| ==> Run(ds, offs, lo, ends, metas, j)
  }

  lemma {:induction false} RunKept(ds: seq<Desc>, offs: Option<seq<Offload>>, lo: nat, ends: seq<nat>,
                                   metas: seq<Offload>, j: nat, e: nat, o: Offload)
    requires (offs.Some? ==> |offs.value| == |ds|) && Run(ds, offs, lo, ends, metas, j)
    ensures Run(ds, offs, lo, ends + [e], metas + [o], j)
  {
  }

  lemma {:induction false} RunsMore(ds: seq<Desc>, offs: Option<seq<Offload>>, lo: nat, ends: seq<nat>,
                                    metas: seq<Offload>, n: nat)
    requires (offs.Some? ==> |offs.value| == |ds|) && Runs(ds, offs, lo, ends, metas)
    requires OnePacket(ds, Begin(lo, ends, |ends|), n)
    ensures Runs(ds, offs, lo, ends + [Begin(lo, ends, |ends|) + n], metas + [MetaAt(offs, Begin(lo, ends, |ends|))])
  {
    var at := Begin(lo, ends, |ends|);
    var ends1, metas1 := ends + [at + n], metas + [MetaAt(offs, at)];
    forall j | 0 <= j < |ends|
      ensures Run(ds, offs, lo, ends1, metas1, j)
    {
      RunKept(ds, offs, lo, ends, metas, j, at + n, MetaAt(offs, at));
    }
    assert Run(ds, offs, lo, ends1, metas1, |ends|);
  }

  /** What `RunPackets` says of packet `j`. */
  ghost predicate RunIs(ds: seq<Desc>, lo: nat, ends: seq<nat>, metas: seq<Offload>, ps: seq<Pkt>, j: nat) {
    && j < |ends| == |metas| && j < |ps| && Begin(lo, ends, j) <= ends[j] <= |ds|
    && ps[j].off == metas[j] && ps[j].pieces == PiecesOf(ds[Begin(lo, ends, j)..ends[j]])
  }

  /** The first `m` runs are `m` packets, and end on a boundary. */
  lemma {:induction false} RunCount(ds: seq<Desc>, offs: Option<seq<Offload>>, lo: nat, ends: seq<nat>,
                                    metas: seq<Offload>, m: nat)
    requires (offs.Some? ==> |offs.value| == |ds|) && Runs(ds, offs, lo, ends, metas) && m <= |ends|
    ensures lo <= Begin(lo, ends, m) <= |ds| && (m > 0 ==> Boundary(ds, Begin(lo, ends, m)))
    ensures |PacketsIn(ds, offs, lo, Begin(lo, ends, m))| == m
  {
    if m > 0 {
      RunCount(ds, offs, lo, ends, metas, m - 1);
      RunLast(ds, offs, lo, ends, metas, m);
    }
  }

  /** One more run is one more packet. */
  lemma {:induction false} RunLast(ds: seq<Desc>, offs: Option<seq<Offload>>, lo: nat, ends: seq<nat>,
                                   metas: seq<Offload>, m: nat)
    requires (offs.Some? ==> |offs.value| == |ds|) && Runs(ds, offs, lo, ends, metas) && 0 < m <= |ends|
    requires lo <= Begin(lo, ends, m - 1) <= |ds| && (m > 1 ==> Boundary(ds, Begin(lo, ends, m - 1)))
    ensures Begin(lo, ends, m - 1) < Begin(lo, ends, m) <= |ds| && Boundary(ds, Begin(lo, ends, m))
    ensures PacketsIn(ds, offs, lo, Begin(lo, ends, m))
            == PacketsIn(ds, offs, lo, Begin(lo, ends, m - 1))
               + [Pkt(metas[m - 1], PiecesOf(ds[Begin(lo, ends, m - 1)..ends[m - 1]]))]
  {
    assert Run(ds, offs, lo, ends, metas, m - 1);
    var at := Begin(lo, ends, m - 1);
    NextPacket(ds, offs, lo, at, ends[m - 1] - at);
  }

  lemma {:induction false} RunPacket(ds: seq<Desc>, offs: Option<seq<Offload>>, lo: nat, ends: seq<nat>,
                                     metas: seq<Offload>, m: nat, j: nat)
    requires (offs.Some? ==> |offs.value| == |ds|) && Runs(ds, offs, lo, ends, metas) && j < m <= |ends|
    ensures lo <= Begin(lo, ends, m) <= |ds|
    ensures RunIs(ds, lo, ends, metas, PacketsIn(ds, offs, lo, Begin(lo, ends, m)), j)
  {
    RunCount(ds, offs, lo, ends, metas, m - 1);
    RunLast(ds, offs, lo, ends, metas, m);
    if j < m - 1 {
      RunPacket(ds, offs, lo, ends, metas, m - 1, j);
    }
  }

  lemma {:induction false} RunPrefix(ds: seq<Desc>, offs: Option<seq<Offload>>, lo: nat, ends: seq<nat>,
                                     metas: seq<Offload>, m: nat, n: nat)
    requires (offs.Some? ==> |offs.value| == |ds|) && Runs(ds, offs, lo, ends, metas) && m <= n <= |ends|
    ensures lo <= Begin(lo, ends, m) <= |ds| && lo <= Begin(lo, ends, n) <= |ds|
    ensures PacketsIn(ds, offs, lo, Begin(lo, ends, m)) <= PacketsIn(ds, offs, lo, Begin(lo, ends, n))
    decreases n
  {
    if m < n {
      RunPrefix(ds, offs, lo, ends, metas, m, n - 1);
      RunCount(ds, offs, lo, ends, metas, n - 1);
      RunLast(ds, offs, lo, ends, metas, n);
    } else {
      RunCount(ds, offs, lo, ends, metas, n);
    }
  }

  /** The runs cut the pieces of the descriptors from `lo` on into the packets they are. */
  lemma {:induction false} RunsCut(ds: seq<Desc>, offs: Option<seq<Offload>>, lo: nat, ends: seq<nat>,
                                   metas: seq<Offload>,
                lens: seq<nat>, ends0: seq<nat>)
    requires (offs.Some? ==> |offs.value| == |ds|) && Runs(ds, offs, lo, ends, metas)
    requires |lens| == |ends| == |ends0| && forall j {:trigger ends0[j]} :: 0 <= j < |ends| ==> ends0[j] == ends[j] - lo
    requires forall j {:trigger lens[j]} :: 0 <= j < |ends| ==> lens[j] == ends[j] - Begin(lo, ends, j)
    ensures lo <= Begin(lo, ends, |ends|) <= |ds|
    ensures CutInto(PiecesOf(ds[lo..]), lens, ends0, metas, PacketsIn(ds, offs, lo, Begin(lo, ends, |ends|)))
  {
    RunCount(ds, offs, lo, ends, metas, |ends|);
    var pieces, ps := PiecesOf(ds[lo..]), PacketsIn(ds, offs, lo, Begin(lo, ends, |ends|));
    forall m | 0 <= m < |ps|
      ensures && lens[m] == ends0[m] - Begin(0, ends0, m) && ends0[m] <= |pieces|
              && ps[m].off == metas[m] && ps[m].pieces == pieces[Begin(0, ends0, m)..ends0[m]]
    {
      RunCount(ds, offs, lo, ends, metas, m);
      RunPacket(ds, offs, lo, ends, metas, |ends|, m);
      assert Begin(0, ends0, m) == Begin(lo, ends, m) - lo;
      PiecesSlice(ds, lo, Begin(lo, ends, m), ends[m]);
    }
  }

  /** The same ends, counted from `lo`. */
  ghost function Rebased(ends: seq<nat>, lo: nat): (r: seq<nat>)
    ensures |r| == |ends|
  {
    seq(|ends|, j requires 0 <= j < |ends| => if ends[j] >= lo then ends[j] - lo else 0)
  }

  lemma {:induction false} RebasedIs(ds: seq<Desc>, offs: Option<seq<Offload>>, lo: nat, ends: seq<nat>,
                                     metas: seq<Offload>)
    requires (offs.Some? ==> |offs.value| == |ds|) && Runs(ds, offs, lo, ends, metas)
    ensures var r := Rebased(ends, lo); forall j {:trigger r[j]} :: 0 <= j < |ends| ==> r[j] == ends[j] - lo
  {
    forall j | 0 <= j < |ends|
      ensures Rebased(ends, lo)[j] == ends[j] - lo
    {
      EndsBelow(ds, offs, lo, ends, metas, 0, j + 1);
    }
  }

  lemma {:induction false} PiecesSlice(ds: seq<Desc>, lo: nat, a: nat, b: nat)
    requires lo <= a <= b <= |ds|
    ensures PiecesOf(ds[lo..])[a - lo..b - lo] == PiecesOf(ds[a..b])
  {
  }

  /** Frames inside the region are good pieces. */
  lemma {:induction false} PiecesGood(span: nat -> nat, ds: seq<Desc>, at: nat, n: nat, world: World)
    requires SpanInside(span, |world.region|) && at + n <= |ds|
    requires forall i {:trigger ds[i]} :: at <= i < at + n ==> DescFits(span, ds[i])
    ensures AllGood(world, PiecesOf(ds[at..at + n]))
  {
  }

  /** Runs of fit packets are good packets. */
  lemma {:induction false} RunsGood(span: nat -> nat, ds: seq<Desc>, offs: Option<seq<Offload>>, lo: nat,
                                    ends: seq<nat>,
                 metas: seq<Offload>, world: World)
    requires SpanInside(span, |world.region|)
    requires (offs.Some? ==> |offs.value| == |ds|) && Runs(ds, offs, lo, ends, metas)
    requires forall i {:trigger ds[i]} :: lo <= i < Begin(lo, ends, |ends|) && i < |ds| ==> DescFits(span, ds[i])
    ensures lo <= Begin(lo, ends, |ends|) <= |ds|
    ensures AllPktsGood(world, PacketsIn(ds, offs, lo, Begin(lo, ends, |ends|)))
  {
    RunCount(ds, offs, lo, ends, metas, |ends|);
    var ps := PacketsIn(ds, offs, lo, Begin(lo, ends, |ends|));
    forall m | 0 <= m < |ps|
      ensures AllGood(world, ps[m].pieces)
    {
      RunPacket(ds, offs, lo, ends, metas, |ends|, m);
      RunCount(ds, offs, lo, ends, metas, m);
      RunPrefix(ds, offs, lo, ends, metas, m + 1, |ends|);
      EndsBelow(ds, offs, lo, ends, metas, m + 1, |ends|);
      PiecesGood(span, ds, Begin(lo, ends, m), ends[m] - Begin(lo, ends, m), world);
    }
  }

  lemma {:induction false} EndsBelow(ds: seq<Desc>, offs: Option<seq<Offload>>, lo: nat, ends: seq<nat>,
                                     metas: seq<Offload>, m: nat, n: nat)
    requires (offs.Some? ==> |offs.value| == |ds|) && Runs(ds, offs, lo, ends, metas) && m <= n <= |ends|
    ensures Begin(lo, ends, m) <= Begin(lo, ends, n)
    decreases n
  {
    if m < n {
      assert Run(ds, offs, lo, ends, metas, n - 1);
      EndsBelow(ds, offs, lo, ends, metas, m, n - 1);
    }
  }

  // ------------------------------------------------------------ the first pass

  method ChainLength(ds: seq<Desc>, at: nat) returns (r: Option<nat>)
    requires at <= |ds|
    ensures r == ChainLen(ds, at, 0)
  {
    var n := 0;
    while at + n < |ds| && ds[at + n].continued
      invariant at + n <= |ds| && ChainLen(ds, at, 0) == ChainLen(ds, at, n)
      decreases |ds| - n
    {
      n := n + 1;
    }
    return if at + n == |ds| || n + 1 > MAX_CHAIN then None else Some(n + 1);
  }

  method CheckChain(span: nat -> nat, ds: seq<Desc>, offs: Option<seq<Offload>>, at: nat, n: nat) returns (ok: bool)
    requires at + n <= |ds| && n > 0 && (offs.Some? ==> |offs.value| == |ds|)
    ensures ok == Fit(span, ds, offs, at, n)
  {
    var length;
    ok, length := CheckFrames(span, ds, at, n);
    if ok && offs.Some? {
      ok := MetasClear(offs.value, at, n);
      ok := ok && OffloadFits(offs.value[at], length);
    }
  }

  method CheckFrames(span: nat -> nat, ds: seq<Desc>, at: nat, n: nat) returns (ok: bool, length: u32)
    requires at + n <= |ds|
    ensures ok <==> forall i {:trigger ds[i]} :: at <= i < at + n ==> DescFits(span, ds[i])
    ensures ok ==> length == Length(ds, at, n)
  {
    length := 0;
    for i := 0 to n
      invariant length == Length(ds, at, i)
      invariant forall j {:trigger ds[j]} :: at <= j < at + i ==> DescFits(span, ds[j])
    {
      if !DescFits(span, ds[at + i]) {
        return false, 0;
      }
      length := Wrap32(length + ds[at + i].len);
    }
    return true, length;
  }

  /** Only the first descriptor of a packet carries metadata. */
  method MetasClear(offs: seq<Offload>, at: nat, n: nat) returns (ok: bool)
    requires n > 0 && at + n <= |offs|
    ensures ok <==> forall i {:trigger offs[i]} :: at < i < at + n ==> offs[i] == NONE
  {
    for i := 1 to n
      invariant forall j {:trigger offs[j]} :: at < j < at + i ==> offs[j] == NONE
    {
      if offs[at + i] != NONE {
        return false;
      }
    }
    return true;
  }

  /** The next packet is whole and fit, but there is no room for all of it. */
  ghost predicate NoRoom(ds: seq<Desc>, at: nat, room: nat)
    requires at <= |ds|
  {
    var n := ChainLen(ds, at, 0);
    n.Some? && at + n.value > room
  }

  /** What a first pass promises of the runs it found. */
  ghost predicate Found(span: nat -> nat, gso: bool, ds: seq<Desc>, offs: Option<seq<Offload>>, lo: nat, room: nat,
                        lens: seq<nat>, metas: seq<Offload>, iovN: nat, ends: seq<nat>)
    requires (offs.Some? ==> |offs.value| == |ds|)
  {
    && |lens| == |ends| <= TX_BATCH && Runs(ds, offs, lo, ends, metas)
    && (forall j {:trigger lens[j]} :: 0 <= j < |ends| ==> lens[j] == ends[j] - Begin(lo, ends, j))
    && lo <= Begin(lo, ends, |ends|) <= |ds| && Begin(lo, ends, |ends|) <= room
    && iovN == Begin(lo, ends, |ends|) - lo + (if gso then |lens| else 0)
    && forall i {:trigger ds[i]} :: lo <= i < Begin(lo, ends, |ends|) ==> DescFits(span, ds[i])
  }

  /**
   Where the packets of one batch end, from `at` on, in a batch that has `m` messages and `iovs`
   iovecs already: whole fit packets, as long as messages, iovecs and room last.
   */
  ghost function BatchEnds(span: nat -> nat, gso: bool, ds: seq<Desc>, offs: Option<seq<Offload>>, at: nat, room: nat,
                           m: nat, iovs: nat): (ends: seq<nat>)
    requires (offs.Some? ==> |offs.value| == |ds|) && at <= |ds|
    ensures at <= Begin(at, ends, |ends|) <= |ds| && (ends != [] ==> at < Begin(at, ends, |ends|))
    decreases |ds| - at
  {
    ChainLenIs(ds, at, 0);
    var n := ChainLen(ds, at, 0);
    if m >= TX_BATCH || n.None? || Overflows(gso, at, n.value, room, iovs) || !Fit(span, ds, offs, at, n.value) then []
    else [at + n.value] + BatchEnds(span, gso, ds, offs, at + n.value, room, m + 1, iovs + Need(gso, n.value))
  }

  lemma {:induction false} BatchStep(span: nat -> nat, gso: bool, ds: seq<Desc>, offs: Option<seq<Offload>>, at: nat,
                                     room: nat,
                                     m: nat, iovs: nat)
    requires (offs.Some? ==> |offs.value| == |ds|) && at <= |ds|
    ensures var n, ends := ChainLen(ds, at, 0), BatchEnds(span, gso, ds, offs, at, room, m, iovs);
            && (at == |ds| ==> n.None?) && (n.Some? ==> 0 < n.value && at + n.value <= |ds|)
            && if m >= TX_BATCH || n.None? || Overflows(gso, at, n.value, room, iovs)
               || !Fit(span, ds, offs, at, n.value)
               then ends == []
               else ends == [at + n.value]
                            + BatchEnds(span, gso, ds, offs, at + n.value, room, m + 1, iovs + Need(gso, n.value))
  {
    ChainLenIs(ds, at, 0);
  }

  /** The iovecs a packet of `n` frames needs. */
  function Need(gso: bool, n: nat): nat { n + (if gso then 1 else 0) }

  /** A packet of `n` frames does not go into the batch, or not into the room there is. */
  predicate Overflows(gso: bool, at: nat, n: nat, room: nat, iovs: nat) {
    iovs + Need(gso, n) > IOV_BUDGET || at + n > room
  }

  /** The messages of each batch, were all batches taken. */
  ghost function Offers(span: nat -> nat, gso: bool, ds: seq<Desc>, offs: Option<seq<Offload>>, at: nat,
                        room: nat): seq<nat>
    requires (offs.Some? ==> |offs.value| == |ds|) && at <= |ds|
    decreases |ds| - at
  {
    var ends := BatchEnds(span, gso, ds, offs, at, room, 0, 0);
    if ends == [] then [] else [|ends|] + Offers(span, gso, ds, offs, Begin(at, ends, |ends|), room)
  }

  /** Nothing is offered from an unfit packet on. */
  lemma {:induction false} NothingUnfit(span: nat -> nat, gso: bool, ds: seq<Desc>, offs: Option<seq<Offload>>,
                                        at: nat, room: nat)
    requires (offs.Some? ==> |offs.value| == |ds|) && Unfit(span, ds, offs, at)
    ensures BatchEnds(span, gso, ds, offs, at, room, 0, 0) == [] == Offers(span, gso, ds, offs, at, room)
  {
  }

  /** Nor from the end of the descriptors on, nor from the end of the room. */
  lemma {:induction false} NothingPast(span: nat -> nat, gso: bool, ds: seq<Desc>, offs: Option<seq<Offload>>,
                                       at: nat, room: nat)
    requires (offs.Some? ==> |offs.value| == |ds|) && at <= |ds| && (at == |ds| || at >= room)
    ensures BatchEnds(span, gso, ds, offs, at, room, 0, 0) == [] == Offers(span, gso, ds, offs, at, room)
  {
    ChainLenIs(ds, at, 0);
  }

  /** Looks at the packet at `at`, for a batch that has `m` messages and `iovs` iovecs. */
  method ScanOne(span: nat -> nat, gso: bool, ds: seq<Desc>, offs: Option<seq<Offload>>, at: nat, room: nat,
                 ghost m: nat, iovs: nat)
    returns (n: nat, refused: bool, full: bool)
    requires (offs.Some? ==> |offs.value| == |ds|) && at < |ds| && m < TX_BATCH
    ensures full ==> !refused && (iovs == 0 ==> NoRoom(ds, at, room))
    ensures var ends := BatchEnds(span, gso, ds, offs, at, room, m, iovs);
            if refused then Unfit(span, ds, offs, at) && ends == []
            else if full then ends == []
            else OnePacket(ds, at, n) && at + n <= room && Fit(span, ds, offs, at, n)
                 && ends == [at + n] + BatchEnds(span, gso, ds, offs, at + n, room, m + 1, iovs + Need(gso, n))
  {
    hide Fit, BatchEnds, ChainLen;
    var r := ChainLength(ds, at);
    ChainLenIs(ds, at, 0);
    BatchStep(span, gso, ds, offs, at, room, m, iovs);
    n, refused, full := 0, r.None?, false;
    if r.Some? {
      n, full := r.value, Overflows(gso, at, r.value, room, iovs);
      if !full {
        var ok := CheckChain(span, ds, offs, at, n);
        refused := !ok;
      }
    }
  }

  /** Finds and checks whole packets from `lo` on, as many as one batch and the room take. */
  method Scan(span: nat -> nat, gso: bool, ds: seq<Desc>, offs: Option<seq<Offload>>, lo: nat, room: nat)
    returns (lens: seq<nat>, metas: seq<Offload>, iovN: nat, refused: bool, ghost ends: seq<nat>)
    requires (offs.Some? ==> |offs.value| == |ds|) && lo <= |ds| && lo <= room
    ensures Found(span, gso, ds, offs, lo, room, lens, metas, iovN, ends)
    ensures ends == BatchEnds(span, gso, ds, offs, lo, room, 0, 0)
    ensures refused ==> Unfit(span, ds, offs, Begin(lo, ends, |ends|))
    ensures lens == [] && !refused ==> lo == |ds| || NoRoom(ds, lo, room)
  {
    hide Fit, BatchEnds, ChainLen, Found, Unfit, OnePacket, Joins, NoRoom;
    lens, metas, iovN, refused, ends := [], [], 0, false, [];
    ghost var all := BatchEnds(span, gso, ds, offs, lo, room, 0, 0);
    FoundNone(span, gso, ds, offs, lo, room);
    JoinsAll(all);
    var at, full := lo, false;
    while at < |ds| && |lens| < TX_BATCH && !refused && !full
      invariant Found(span, gso, ds, offs, lo, room, lens, metas, iovN, ends) && |lens| == |ends| <= TX_BATCH
      invariant at == Begin(lo, ends, |ends|) <= |ds| && (lens == [] ==> iovN == 0)
      invariant refused ==> Unfit(span, ds, offs, at)
      invariant full && lens == [] ==> NoRoom(ds, lo, room)
      invariant Joins(all, ends, if refused || full then [] else BatchEnds(span, gso, ds, offs, at, room, |lens|, iovN))
      decreases !refused && !full, |ds| - at
    {
      var n;
      n, refused, full := ScanOne(span, gso, ds, offs, at, room, |lens|, iovN);
      if !refused && !full {
        FoundNext(span, gso, ds, offs, lo, room, lens, metas, iovN, ends, n);
        Advances(ds, at, n);
        JoinsMore(all, ends, at + n, BatchEnds(span, gso, ds, offs, at + n, room, |lens| + 1, iovN + Need(gso, n)));
        lens, metas, ends := lens + [n], metas + [MetaAt(offs, at)], ends + [at + n];
        iovN, at := iovN + Need(gso, n), at + n;
      }
    }
    BatchStep(span, gso, ds, offs, at, room, |lens|, iovN);
    JoinsEnd(all, ends);
  }

  ghost predicate Joins(all: seq<nat>, done: seq<nat>, rest: seq<nat>) { all == done + rest }

  lemma {:induction false} JoinsAll(all: seq<nat>)
    ensures Joins(all, [], all)
  {
    assert [] + all == all;
  }

  lemma {:induction false} JoinsMore(all: seq<nat>, done: seq<nat>, x: nat, rest: seq<nat>)
    requires Joins(all, done, [x] + rest)
    ensures Joins(all, done + [x], rest)
  {
    assert (done + [x]) + rest == done + ([x] + rest);
  }

  lemma {:induction false} JoinsEnd(all: seq<nat>, done: seq<nat>)
    ensures Joins(all, done, []) ==> all == done
  {
    assert done + [] == done;
  }

  lemma {:induction false} Advances(ds: seq<Desc>, at: nat, n: nat)
    requires OnePacket(ds, at, n)
    ensures at < at + n <= |ds|
  {
  }

  lemma {:induction false} Assoc<T>(a: seq<T>, b: seq<T>, c: seq<T>)
    ensures (a + b) + c == a + (b + c)
  {
  }

  lemma {:induction false} FoundNone(span: nat -> nat, gso: bool, ds: seq<Desc>, offs: Option<seq<Offload>>, lo: nat,
                                     room: nat)
    requires (offs.Some? ==> |offs.value| == |ds|) && lo <= |ds| && lo <= room
    ensures Found(span, gso, ds, offs, lo, room, [], [], 0, [])
  {
  }

  lemma {:induction false} FoundNext(span: nat -> nat, gso: bool, ds: seq<Desc>, offs: Option<seq<Offload>>, lo: nat,
                                     room: nat,
                  lens: seq<nat>, metas: seq<Offload>, iovN: nat, ends: seq<nat>, n: nat)
    requires (offs.Some? ==> |offs.value| == |ds|) && |lens| < TX_BATCH
    requires Found(span, gso, ds, offs, lo, room, lens, metas, iovN, ends)
    requires var at := Begin(lo, ends, |ends|);
             OnePacket(ds, at, n) && at + n <= room && Fit(span, ds, offs, at, n)
    ensures var at := Begin(lo, ends, |ends|);
            Found(span, gso, ds, offs, lo, room, lens + [n], metas + [MetaAt(offs, at)],
                  iovN + Need(gso, n), ends + [at + n])
  {
    RunsMore(ds, offs, lo, ends, metas, n);
    FoundMore(lo, ends, lens, n);
  }

  lemma {:induction false} FoundMore(lo: nat, ends: seq<nat>, lens: seq<nat>, n: nat)
    requires |lens| == |ends| && forall j {:trigger lens[j]} :: 0 <= j < |ends| ==>
             lens[j] == ends[j] - Begin(lo, ends, j)
    ensures var e, l := ends + [Begin(lo, ends, |ends|) + n], lens + [n];
            forall j {:trigger l[j]} :: 0 <= j < |e| ==> l[j] == e[j] - Begin(lo, e, j)
  {
    var e, l := ends + [Begin(lo, ends, |ends|) + n], lens + [n];
    forall j | 0 <= j < |e|
      ensures l[j] == e[j] - Begin(lo, e, j)
    {
      if j < |ends| {
        assert l[j] == lens[j];
      }
    }
  }

  // -------------------------------------------------------------- single frames

  /** Descriptor `i`, a packet of its own, is fit to send. */
  ghost predicate SingleOK(span: nat -> nat, ds: seq<Desc>, offs: Option<seq<Offload>>, i: nat)
    requires i < |ds| && (offs.Some? ==> |offs.value| == |ds|)
  {
    DescFits(span, ds[i]) && (offs.Some? ==> OffloadFits(offs.value[i], ds[i].len))
  }

  lemma {:induction false} SingleUnfit(span: nat -> nat, ds: seq<Desc>, offs: Option<seq<Offload>>, i: nat)
    requires i < |ds| && (offs.Some? ==> |offs.value| == |ds|) && !ds[i].continued
    ensures Unfit(span, ds, offs, i) <==> !SingleOK(span, ds, offs, i)
    ensures ChainLen(ds, i, 0) == Some(1) && (Fit(span, ds, offs, i, 1) <==> SingleOK(span, ds, offs, i))
  {
    assert ChainLen(ds, i, 0) == Some(1);
    assert Length(ds, i, 1) == Wrap32(Length(ds, i, 0) + ds[i].len) == ds[i].len;
  }

  /** Single frames never run out of iovecs: a batch of them ends at its size, at the room, or at an unfit frame. */
  lemma {:induction false} SinglesEnd(span: nat -> nat, gso: bool, ds: seq<Desc>, offs: Option<seq<Offload>>, at: nat,
                                      room: nat, m: nat, iovs: nat, n: nat)
    requires (offs.Some? ==> |offs.value| == |ds|) && at + n <= |ds| && at + n <= room && iovs <= 2 * m
             && m + n <= TX_BATCH
    requires forall i {:trigger ds[i]} :: 0 <= i < |ds| ==> !ds[i].continued
    requires forall i {:trigger SingleOK(span, ds, offs, i)} :: at <= i < at + n ==> SingleOK(span, ds, offs, i)
    requires m + n == TX_BATCH || at + n == |ds| || at + n == room || !SingleOK(span, ds, offs, at + n)
    ensures var ends := BatchEnds(span, gso, ds, offs, at, room, m, iovs);
            |ends| == n && Begin(at, ends, n) == at + n
    decreases n
  {
    hide SingleOK, Fit, BatchEnds, ChainLen, Unfit;
    BatchStep(span, gso, ds, offs, at, room, m, iovs);
    if at < |ds| {
      SingleUnfit(span, ds, offs, at);
    }
    if n > 0 {
      SinglesEnd(span, gso, ds, offs, at + 1, room, m + 1, iovs + Need(gso, 1), n - 1);
    }
  }

  /** How many descriptors from `lo` on are fit, up to the first that is not. */
  method CheckSingles(span: nat -> nat, ds: seq<Desc>, offs: Option<seq<Offload>>, lo: nat, hi: nat) returns (n: nat)
    requires lo <= hi <= |ds| && (offs.Some? ==> |offs.value| == |ds|)
    ensures lo + n <= hi && (lo + n < hi ==> !SingleOK(span, ds, offs, lo + n))
    ensures forall i :: lo <= i < lo + n ==> SingleOK(span, ds, offs, i)
  {
    n := 0;
    while lo + n < hi
      invariant lo + n <= hi
      invariant forall i :: lo <= i < lo + n ==> SingleOK(span, ds, offs, i)
    {
      if !DescFits(span, ds[lo + n]) || (offs.Some? && !OffloadFits(offs.value[lo + n], ds[lo + n].len)) {
        break;
      }
      n := n + 1;
    }
  }

  /** Fit single frames are good packets. */
  lemma {:induction false} SinglesGood(span: nat -> nat, ds: seq<Desc>, offs: Option<seq<Offload>>, lo: nat, n: nat,
                                       world: World)
    requires SpanInside(span, |world.region|) && lo + n <= |ds| && (offs.Some? ==> |offs.value| == |ds|)
    requires forall i {:trigger ds[i]} :: 0 <= i < |ds| ==> !ds[i].continued
    requires forall i :: lo <= i < lo + n ==> SingleOK(span, ds, offs, i)
    ensures AllPktsGood(world, PacketsIn(ds, offs, lo, lo + n))
  {
    SinglesAre(ds, offs, lo, lo + n);
    var ps := PacketsIn(ds, offs, lo, lo + n);
    forall i | 0 <= i < |ps|
      ensures AllGood(world, ps[i].pieces)
    {
      assert SingleOK(span, ds, offs, lo + i);
    }
  }

  /** Fewer single frames are fewer packets. */
  lemma {:induction false} SinglesPrefix(ds: seq<Desc>, offs: Option<seq<Offload>>, lo: nat, n: nat, k: nat)
    requires lo + n <= |ds| && k <= n && (offs.Some? ==> |offs.value| == |ds|)
    requires forall i {:trigger ds[i]} :: 0 <= i < |ds| ==> !ds[i].continued
    ensures |PacketsIn(ds, offs, lo, lo + n)| == n
    ensures PacketsIn(ds, offs, lo, lo + n)[..k] == PacketsIn(ds, offs, lo, lo + k)
  {
    PacketsJoin(ds, offs, lo, lo + k, lo + n);
    SinglesAre(ds, offs, lo, lo + k);
    SinglesAre(ds, offs, lo, lo + n);
  }

  /** Fit single frames that there is room for are offered in batches as large as they may be. */
  lemma {:induction false} SinglesOffered(span: nat -> nat, gso: bool, ds: seq<Desc>, offs: Option<seq<Offload>>,
                                          at: nat, room: nat)
    requires (offs.Some? ==> |offs.value| == |ds|) && at <= |ds| <= room
    requires forall i {:trigger ds[i]} :: 0 <= i < |ds| ==> !ds[i].continued
    requires forall i {:trigger SingleOK(span, ds, offs, i)} :: at <= i < |ds| ==> SingleOK(span, ds, offs, i)
    ensures Offers(span, gso, ds, offs, at, room) == Batches(|ds| - at)
    decreases |ds| - at
  {
    hide SingleOK, BatchEnds;
    var n := Min(|ds| - at, TX_BATCH);
    SinglesEnd(span, gso, ds, offs, at, room, 0, 0, n);
    if n > 0 {
      SinglesOffered(span, gso, ds, offs, at + n, room);
    }
  }
}
