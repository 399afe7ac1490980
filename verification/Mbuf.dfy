/**
 The packet-buffer header of the DPDK backend, read and written as bytes inside
 the frame region. A frame is laid out as object header, header, headroom,
 packet; fields are little-endian, as on every machine the backend builds for.
 */
module Mbuf {
  import opened Words
  import opened Bytes

  /** Size of the header, and the byte offsets of its fields. */
  const SIZE: nat := 128
  const OFF_REARM: nat := 16
  const OFF_OL_FLAGS: nat := 24
  const OFF_PKT_LEN: nat := 36
  const OFF_DATA_LEN: nat := 40
  const OFF_POOL: nat := 56
  const OFF_NEXT: nat := 64
  const PORT_INVALID: u16 := 0xffff

  datatype Layout = Layout(frameSize: nat, objHeader: nat, mbufSize: nat, headroom: nat) {
    ghost predicate Valid() {
      IsPow2(frameSize) && mbufSize >= SIZE && DataStart() < frameSize
    }

    /** Where the data buffer starts inside a frame, and where a fresh packet does. */
    function BufStart(): nat { objHeader + mbufSize }

    function DataStart(): nat { objHeader + mbufSize + headroom }
  }

  /** `data_off`, `refcnt`, `nb_segs` and `port` in one word. */
  function Rearm(dataOff: u16, refcnt: u16, nbSegs: u16, port: u16): (w: u64)
    ensures w % 0x10000 == dataOff && (w / 0x1_0000) % 0x10000 == refcnt
    ensures (w / 0x1_0000_0000) % 0x10000 == nbSegs && w / 0x1_0000_0000_0000 == port
  {
    var w := dataOff + refcnt * 0x1_0000 + nbSegs * 0x1_0000_0000 + port * 0x1_0000_0000_0000;
    ModUnique(w, TWO16, refcnt + nbSegs * 0x1_0000 + port * 0x1_0000_0000, dataOff);
    ModUnique(w, TWO32, nbSegs + port * 0x1_0000, dataOff + refcnt * 0x1_0000);
    ModUnique(nbSegs + port * 0x1_0000, TWO16, port, nbSegs);
    ModUnique(refcnt + nbSegs * 0x1_0000 + port * 0x1_0000_0000, TWO16, nbSegs + port * 0x1_0000, refcnt);
    w
  }

  /** One field store: `n` bytes of `v` at `at`. */
  datatype Store = Store(at: nat, n: nat, v: nat) {
    predicate Fits(size: nat) { at + n <= size }

    predicate Apart(lo: nat, len: nat) { at + n <= lo || lo + len <= at }
  }

  ghost predicate AllFit(ss: seq<Store>, size: nat) {
    forall k :: 0 <= k < |ss| ==> ss[k].Fits(size)
  }

  /** The region after a run of stores, first to last. */
  function Stored(b: bytes, ss: seq<Store>): (r: bytes)
    requires AllFit(ss, |b|)
    ensures |r| == |b|
    decreases |ss|
  {
    if ss == [] then b
    else
      var last := ss[|ss| - 1];
      Splice(Stored(b, ss[..|ss| - 1]), last.at, ToLE(last.v, last.n))
  }

  function Get(b: bytes, at: nat, n: nat): nat
    requires at + n <= |b|
  {
    FromLE(b[at..at + n])
  }

  function PoolOf(b: bytes, m: nat): nat
    requires m + SIZE <= |b|
  {
    Get(b, m + OFF_POOL, 8)
  }

  /** Bytes no store touches are as they were. */
  lemma {:induction false} StoredApart(b: bytes, ss: seq<Store>, lo: nat, len: nat)
    requires AllFit(ss, |b|) && lo + len <= |b|
    requires forall k :: 0 <= k < |ss| ==> ss[k].Apart(lo, len)
    ensures Stored(b, ss)[lo..lo + len] == b[lo..lo + len]
  {
    if ss != [] {
      var n := |ss| - 1;
      StoredApart(b, ss[..n], lo, len);
      SpliceApart(Stored(b, ss[..n]), ss[n].at, ToLE(ss[n].v, ss[n].n), lo, lo + len);
    }
  }

  /** A field holds what was last stored there. */
  lemma {:induction false} StoredField(b: bytes, ss: seq<Store>, k: nat)
    requires AllFit(ss, |b|) && k < |ss|
    requires forall j :: k < j < |ss| ==> ss[j].Apart(ss[k].at, ss[k].n)
    ensures Stored(b, ss)[ss[k].at..ss[k].at + ss[k].n] == ToLE(ss[k].v, ss[k].n)
  {
    var n := |ss| - 1;
    var s := Stored(b, ss[..n]);
    if k == n {
      SpliceOwn(s, ss[n].at, ToLE(ss[n].v, ss[n].n));
    } else {
      StoredField(b, ss[..n], k);
      SpliceApart(s, ss[n].at, ToLE(ss[n].v, ss[n].n), ss[k].at, ss[k].at + ss[k].n);
    }
  }

  function TxStores(m: nat, pool: u64, dataOff: u16, length: u32): seq<Store> {
    [ Store(m + OFF_REARM, 8, Rearm(dataOff, 1, 1, PORT_INVALID)),
      Store(m + OFF_OL_FLAGS, 8, 0),
      Store(m + OFF_PKT_LEN, 4, length),
      Store(m + OFF_DATA_LEN, 2, length % 0x10000),
      Store(m + OFF_NEXT, 8, 0),
      Store(m + OFF_POOL, 8, pool) ]
  }

  function RxStores(m: nat, headroom: u16, pool: u64): seq<Store> {
    [ Store(m + OFF_REARM, 8, Rearm(headroom, 1, 1, PORT_INVALID)),
      Store(m + OFF_NEXT, 8, 0),
      Store(m + OFF_POOL, 8, pool) ]
  }

  /** The region after the header at `m` is made to describe one packet to send. */
  function PreparedTx(b: bytes, m: nat, pool: u64, dataOff: u16, length: u32): (r: bytes)
    requires m + SIZE <= |b|
    ensures |r| == |b|
  {
    Stored(b, TxStores(m, pool, dataOff, length))
  }

  /** The region after the header at `m` is readied for the driver to receive into. */
  function ResetForRx(b: bytes, m: nat, headroom: u16, pool: u64): (r: bytes)
    requires m + SIZE <= |b|
    ensures |r| == |b|
  {
    Stored(b, RxStores(m, headroom, pool))
  }

  /** Neither write leaves its own header: the packet and every other frame are untouched. */
  lemma {:induction false} HeaderWritesStayInside(b: bytes, m: nat, pool: u64, dataOff: u16, length: u32, lo: nat,
                                                  len: nat)
    requires m + SIZE <= |b| && lo + len <= |b|
    requires lo + len <= m || m + SIZE <= lo
    ensures PreparedTx(b, m, pool, dataOff, length)[lo..lo + len] == b[lo..lo + len]
    ensures ResetForRx(b, m, dataOff, pool)[lo..lo + len] == b[lo..lo + len]
  {
    StoredApart(b, TxStores(m, pool, dataOff, length), lo, len);
    StoredApart(b, RxStores(m, dataOff, pool), lo, len);
  }

  datatype Received = Received(dataOff: u16, nbSegs: u16, dataLen: u16, olFlags: u64)

  /** Everything the receive path wants, in three wide loads. */
  function RxRead(b: bytes, m: nat): Received
    requires m + SIZE <= |b|
  {
    Pow256Values();
    var rearmWord := Get(b, m + OFF_REARM, 8);
    var lenWord := Get(b, m + OFF_PKT_LEN, 8);
    Received(rearmWord % 0x10000, (rearmWord / 0x1_0000_0000) % 0x10000, (lenWord / 0x1_0000_0000) % 0x10000,
             Get(b, m + OFF_OL_FLAGS, 8))
  }

  /** The two bytes at `at`, the low one first. */
  function Word(b: bytes, at: nat): nat
    requires at + 2 <= |b|
  {
    var lo: int, hi: int := b[at], b[at + 1];
    lo + 256 * hi
  }

  lemma {:induction false} TwoBytes(b: bytes, at: nat)
    requires at + 2 <= |b|
    ensures FromLE(b[at..at + 2]) == Word(b, at)
  {
    var s := b[at..at + 2];
    assert s[1..] == [s[1]] && s[1..][1..] == [];
    assert FromLE(s) == s[0] + 256 * FromLE(s[1..]) && FromLE(s[1..]) == s[1] + 256 * FromLE([]);
  }

  lemma {:induction false} SeventhBit(w: nat)
    ensures Bit(w, 7) <==> w / 128 % 2 == 1
  {
    assert Bit(w, 7) == Bit(w / 2, 6) == Bit(w / 4, 5) == Bit(w / 8, 4) == Bit(w / 16, 3);
    assert Bit(w / 16, 3) == Bit(w / 32, 2) == Bit(w / 64, 1) == Bit(w / 128, 0);
  }

  lemma {:induction false} LowBitsOf(w: nat, x: u8, y: u8, z: nat)
    requires w == x + 256 * (y + 256 * z)
    ensures Bit(w, 7) <==> x >= 128
    ensures Bit(w, 8) <==> y % 2 == 1
  {
    hide Bit;
    var v := y + 256 * z;
    EighthBit(w);
    SeventhBit(w);
    LowPart(w, x, v);
    LowDigit(v, y, z);
  }

  lemma {:induction false} EighthBit(w: nat)
    ensures Bit(w, 8) <==> w / 256 % 2 == 1
  {
    assert Bit(w, 8) == Bit(w / 2, 7);
    SeventhBit(w / 2);
  }

  lemma {:induction false} LowPart(w: nat, x: u8, v: nat)
    requires w == x + 256 * v
    ensures w / 128 % 2 == 1 <==> x >= 128
    ensures w / 256 == v
  {
    if x >= 128 {
      assert w == (x - 128) + 128 * (2 * v + 1);
    } else {
      assert w == x + 128 * (2 * v);
    }
  }

  lemma {:induction false} LowDigit(v: nat, y: u8, z: nat)
    requires v == y + 256 * z
    ensures v % 2 == y % 2
  {
    assert v == y % 2 + 2 * (y / 2 + 128 * z);
  }

  /** The wide loads give the fields that lie at their own places: two bytes at 16, 20 and 40, and flags from 24 on. */
  lemma {:induction false} FieldsLie(b: bytes, m: nat)
    requires m + SIZE <= |b|
    ensures var r := RxRead(b, m);
            && r.dataOff == Word(b, m + 16) && r.nbSegs == Word(b, m + 20)
            && r.dataLen == Word(b, m + 40)
            && (Bit(r.olFlags, 7) <==> b[m + 24] >= 128) && (Bit(r.olFlags, 8) <==> b[m + 25] % 2 == 1)
            && PoolOf(b, m) == FromLE(b[m + 56..m + 64])
  {
    hide FromLE, Bit;
    Pow256Values();
    var rearm, flags := b[m + 16..m + 24], b[m + 24..m + 32];
    WideLoad(rearm);
    SliceOfSlice(b, m + 16, 8, 0, 2);
    SliceOfSlice(b, m + 16, 8, 4, 2);
    TwoBytes(b, m + 16);
    TwoBytes(b, m + 20);
    TwoBytes(b, m + 40);
    LenWord(b, m);
    TwoOff(flags);
    LowBitsOf(FromLE(flags), flags[0], flags[1], FromLE(flags[2..]));
  }

  lemma {:induction false} TwoOff(s: bytes)
    requires |s| >= 2
    ensures FromLE(s) == s[0] + 256 * (s[1] + 256 * FromLE(s[2..]))
  {
    assert s[1..][1..] == s[2..];
  }

  /** The header has one owner, no next segment and no port. */
  predicate Unshared(b: bytes, m: nat)
    requires m + SIZE <= |b|
  {
    var w := Get(b, m + OFF_REARM, 8);
    (w / 0x1_0000) % 0x10000 == 1 && w / 0x1_0000_0000_0000 == PORT_INVALID && Get(b, m + OFF_NEXT, 8) == 0
  }

  /** What the receive path reads back from a header prepared for sending. */
  lemma {:induction false} PreparedReadsBack(b: bytes, m: nat, pool: u64, dataOff: u16, length: u32)
    requires m + SIZE <= |b|
    ensures var r := PreparedTx(b, m, pool, dataOff, length);
            && RxRead(r, m) == Received(dataOff, 1, length % 0x10000, 0) && PoolOf(r, m) == pool
            && Get(r, m + OFF_PKT_LEN, 4) == length && Unshared(r, m)
  {
    hide Stored, FromLE, Rearm;
    var ss := TxStores(m, pool, dataOff, length);
    var r := Stored(b, ss);
    FieldReads(b, ss, 0);
    FieldReads(b, ss, 1);
    FieldReads(b, ss, 2);
    FieldReads(b, ss, 3);
    FieldReads(b, ss, 4);
    FieldReads(b, ss, 5);
    LenWord(r, m);
  }

  lemma {:induction false} FieldReads(b: bytes, ss: seq<Store>, k: nat)
    requires AllFit(ss, |b|) && k < |ss|
    requires forall j :: k < j < |ss| ==> ss[j].Apart(ss[k].at, ss[k].n)
    requires (ss[k].n == 8 && ss[k].v < TWO64) || (ss[k].n == 4 && ss[k].v < TWO32) || (ss[k].n == 2 && ss[k].v < TWO16)
    ensures Get(Stored(b, ss), ss[k].at, ss[k].n) == ss[k].v
  {
    StoredField(b, ss, k);
    LEExact(ss[k].v, ss[k].n);
  }

  lemma {:induction false} LEExact(v: nat, n: nat)
    requires (n == 8 && v < TWO64) || (n == 4 && v < TWO32) || (n == 2 && v < TWO16)
    ensures FromLE(ToLE(v, n)) == v
  {
    Pow256Values();
    LERoundTrip(v, n);
  }

  lemma {:induction false} LenWord(r: bytes, m: nat)
    requires m + SIZE <= |r|
    ensures (Get(r, m + OFF_PKT_LEN, 8) / 0x1_0000_0000) % 0x10000 == Get(r, m + OFF_DATA_LEN, 2)
  {
    var lens := r[m + OFF_PKT_LEN..m + OFF_PKT_LEN + 8];
    SliceOfSlice(r, m + OFF_PKT_LEN, 8, 4, 2);
    WideLoad(lens);
  }

  /** A header readied for receiving names the given pool and one segment after the headroom. */
  lemma {:induction false} ResetReadsBack(b: bytes, m: nat, headroom: u16, pool: u64)
    requires m + SIZE <= |b|
    ensures var r := ResetForRx(b, m, headroom, pool);
            && PoolOf(r, m) == pool && RxRead(r, m).dataOff == headroom && RxRead(r, m).nbSegs == 1
            && Unshared(r, m)
  {
    var ss := RxStores(m, headroom, pool);
    FieldReads(b, ss, 0);
    FieldReads(b, ss, 1);
    FieldReads(b, ss, 2);
  }

  method PutField(b: array<u8>, s: Store)
    requires s.Fits(b.Length)
    modifies b
    ensures b[..] == Splice(old(b[..]), s.at, ToLE(s.v, s.n))
  {
    Blit(b, s.at, ToLE(s.v, s.n));
  }

  method PutAll(b: array<u8>, ss: seq<Store>)
    requires AllFit(ss, b.Length)
    modifies b
    ensures b[..] == Stored(old(b[..]), ss)
  {
    for k := 0 to |ss|
      invariant b[..] == Stored(old(b[..]), ss[..k])
    {
      PutField(b, ss[k]);
      assert ss[..k + 1][..k] == ss[..k];
    }
    assert ss[..|ss|] == ss;
  }

  method PrepareTx(b: array<u8>, m: nat, pool: u64, dataOff: u16, length: u32)
    requires m + SIZE <= b.Length
    modifies b
    ensures b[..] == PreparedTx(old(b[..]), m, pool, dataOff, length)
  {
    PutAll(b, TxStores(m, pool, dataOff, length));
  }

  method ResetRx(b: array<u8>, m: nat, headroom: u16, pool: u64)
    requires m + SIZE <= b.Length
    modifies b
    ensures b[..] == ResetForRx(old(b[..]), m, headroom, pool)
  {
    PutAll(b, RxStores(m, headroom, pool));
  }
}
