/**
 Laying packets into the slots of a batch: one buffer when the packet fits, and
 several, whole or not at all, when the ring chains.
 */
module RxSpread {
  import opened Words
  import opened Bytes
  import opened Offloads
  import opened Tpacket
  import opened RxBatch

  /** The last segment is empty. */
  predicate Hollow(segs: seq<bytes>) { segs != [] && segs[|segs| - 1] == [] }

  /** No segment but the last may be empty. */
  ghost predicate Proper(segs: seq<bytes>) {
    segs != [] && forall i :: 0 <= i < |segs| - 1 ==> segs[i] != []
  }

  /**
   A packet as it is laid out: buffer by buffer, and one more, empty, when an empty last
   segment is found only after the buffer before it was full.
   */
  function Spilled(w: bytes, room: nat, hollow: bool): (ps: seq<bytes>)
    requires room > 0
    ensures ps != [] && forall j :: 0 <= j < |ps| ==> |ps[j]| <= room
    decreases |w|
  {
    if |w| < room || (|w| == room && !hollow) then [w] else [w[..room]] + Spilled(w[room..], room, hollow)
  }

  /** That is the packet cut into buffers, unless its last segment is empty and it fills its buffers exactly. */
  lemma {:induction false} SpilledIff(w: bytes, room: nat, hollow: bool)
    requires room > 0
    ensures Spilled(w, room, hollow) == Pieces(w, room) <==> !(hollow && w != [] && |w| % room == 0)
    decreases |w|
  {
    var q, r := |w| / room, |w| % room;
    assert |w| == room * q + r;
    if |w| > room {
      ModUnique(|w| - room, room, q - 1, r);
      SpilledIff(w[room..], room, hollow);
      var a, b := Spilled(w, room, hollow), Pieces(w, room);
      assert a[1..] == Spilled(w[room..], room, hollow) && b[1..] == Pieces(w[room..], room);
    } else if |w| == room {
      ModUnique(|w|, room, 1, 0);
      assert |Pieces(w, room)| == 1;
    } else {
      ModUnique(|w|, room, 0, |w|);
    }
  }

  /** At byte `at` of segment `seg`, short of its end or at an empty last one, with `rem` still to come. */
  ghost predicate Stands(segs: seq<bytes>, seg: nat, at: nat, rem: bytes)
    decreases |segs| - seg
  {
    if seg >= |segs| then seg == |segs| && at == 0 && rem == []
    else
      && (at < |segs[seg]| || (at == 0 && segs[seg] == [] && seg == |segs| - 1))
      && segs[seg][at..] <= rem && Stands(segs, seg + 1, 0, rem[|segs[seg]| - at..])
  }

  lemma {:induction false} StandsAtStart(segs: seq<bytes>, seg: nat)
    requires seg <= |segs| && Proper(segs)
    ensures Stands(segs, seg, 0, Join(segs[seg..]))
    decreases |segs| - seg
  {
    if seg < |segs| {
      StandsAtStart(segs, seg + 1);
      var s, more := segs[seg], Join(segs[seg + 1..]);
      assert segs[seg..][0] == s && segs[seg..][1..] == segs[seg + 1..];
      assert Join(segs[seg..]) == s + more;
      assert (s + more)[|s|..] == more;
    }
  }

  /** Copying `c` bytes of a segment moves the position along by them. */
  lemma {:induction false} NextPart(segs: seq<bytes>, seg: nat, at: nat, c: nat, rem: bytes)
    requires seg < |segs| && Stands(segs, seg, at, rem) && at + c <= |segs[seg]|
    ensures c <= |rem| && segs[seg][at..at + c] == rem[..c]
    ensures at + c < |segs[seg]| ==> Stands(segs, seg, at + c, rem[c..])
    ensures at + c == |segs[seg]| ==> Stands(segs, seg + 1, 0, rem[c..])
  {
    var s := segs[seg];
    assert s[at..][..c] == s[at..at + c] == rem[..c];
    if at + c < |s| {
      assert s[at + c..] == s[at..][c..] == rem[c..][..|s| - at - c];
      assert rem[c..][|s| - (at + c)..] == rem[|s| - at..];
    }
  }

  /** Fills one slot from the segments: as much as fits, or all that is left. */
  method FillSlot(batch: Batch, k: nat, segs: seq<bytes>, seg0: nat, at0: nat, ghost rem: bytes)
    returns (seg: nat, at: nat, written: nat)
    requires batch.Valid() && k < |batch.descs| && Stands(segs, seg0, at0, rem)
    modifies batch.region
    ensures written == Min(batch.Room(), |rem|) && Stands(segs, seg, at, rem[written..])
    ensures seg0 <= seg && (seg == |segs| <==> written == |rem| && (Hollow(segs) ==> written < batch.Room()))
    ensures batch.Data(k, written) == rem[..written]
    ensures forall i: nat, p: bytes {:trigger old(batch.Has(i, p))} ::
              i != k && old(batch.Has(i, p)) ==> batch.Has(i, p)
  {
    hide Batch.Valid, Stands, Batch.Has, Batch.Data;
    SomeRoom(batch);
    seg, at, written := seg0, at0, 0;
    NothingIn(batch, k);
    assert rem[0..] == rem && rem[..0] == [];
    StandsAt(segs, seg, at, rem);
    while seg < |segs| && written < batch.Room()
      invariant written <= batch.Room() && written <= |rem| && Stands(segs, seg, at, rem[written..])
      invariant batch.Data(k, written) == rem[..written]
      invariant seg0 <= seg <= |segs| && (seg == |segs| && Hollow(segs) ==> written < batch.Room())
      invariant forall i: nat, p: bytes {:trigger old(batch.Has(i, p))} ::
                  i != k && old(batch.Has(i, p)) ==> batch.Has(i, p)
      decreases |segs| - seg, batch.Room() - written
    {
      StandsAt(segs, seg, at, rem[written..]);
      var c := Min(batch.Room() - written, |segs[seg]| - at);
      NextOfRest(segs, seg, at, c, rem, written);
      batch.Put(k, written, segs[seg][at..at + c], rem[..written]);
      written, at := written + c, at + c;
      if at == |segs[seg]| {
        seg, at := seg + 1, 0;
      }
    }
    StandsAt(segs, seg, at, rem[written..]);
  }

  lemma {:induction false} NothingIn(batch: Batch, k: nat)
    requires batch.Valid() && k < |batch.descs|
    ensures batch.Data(k, 0) == []
  {
  }

  /** Where a position can be. */
  lemma {:induction false} StandsAt(segs: seq<bytes>, seg: nat, at: nat, rem: bytes)
    requires Stands(segs, seg, at, rem)
    ensures seg <= |segs| && (seg == |segs| ==> rem == [])
    ensures seg < |segs| ==>
              && at <= |segs[seg]| && (at == |segs[seg]| ==> segs[seg] == [] && seg == |segs| - 1)
              && (rem == [] ==> Hollow(segs))
  {
  }

  lemma {:induction false} SomeRoom(batch: Batch)
    requires batch.Valid()
    ensures batch.Room() > 0
  {
  }

  lemma {:induction false} NextOfRest(segs: seq<bytes>, seg: nat, at: nat, c: nat, rem: bytes, written: nat)
    requires seg < |segs| && written <= |rem| && Stands(segs, seg, at, rem[written..]) && at + c <= |segs[seg]|
    ensures written + c <= |rem| && rem[..written] + segs[seg][at..at + c] == rem[..written + c]
    ensures at + c < |segs[seg]| ==> Stands(segs, seg, at + c, rem[written + c..])
    ensures at + c == |segs[seg]| ==> Stands(segs, seg + 1, 0, rem[written + c..])
  {
    NextPart(segs, seg, at, c, rem[written..]);
    assert rem[written..][c..] == rem[written + c..];
  }

  /** What `Spread` promises about the slots it used. */
  ghost predicate Laid(batch: Batch, out: nat, ps: seq<bytes>)
    reads batch`descs, batch`lens, batch.region
  {
    forall j :: 0 <= j < |ps| ==> batch.Has(out + j, ps[j])
  }

  /** The pieces of what is left begin with as much as one buffer takes. */
  lemma {:induction false} SpilledNext(done: seq<bytes>, rem: bytes, room: nat, hollow: bool)
    requires room > 0
    ensures var k := Min(room, |rem|);
            done + Spilled(rem, room, hollow) ==
            (done + [rem[..k]]) + (if k == |rem| && (hollow ==> k < room) then [] else Spilled(rem[k..], room, hollow))
  {
    if |rem| < room || (|rem| == room && !hollow) {
      assert rem[..|rem|] == rem;
    } else {
      assert done + ([rem[..room]] + Spilled(rem[room..], room, hollow))
          == (done + [rem[..room]]) + Spilled(rem[room..], room, hollow);
    }
  }

  /** Asks for the buffer of slot `k` and fills it. */
  method LayOne(batch: Batch, k: nat, segs: seq<bytes>, seg0: nat, at0: nat, ghost rem: bytes)
    returns (got: bool, seg: nat, at: nat)
    requires batch.Valid() && k <= |batch.descs| && k < batch.max && Stands(segs, seg0, at0, rem)
    modifies batch`free, batch`descs, batch`lens, batch.region
    ensures batch.Valid() && old(batch.descs) <= batch.descs
    ensures got == (k < |batch.start|)
    ensures got ==> var w := Min(batch.Room(), |rem|);
                    && batch.Has(k, rem[..w]) && Stands(segs, seg, at, rem[w..])
                    && seg0 <= seg && (seg == |segs| <==> w == |rem| && (Hollow(segs) ==> w < batch.Room()))
    ensures forall i: nat, p: bytes {:trigger old(batch.Has(i, p))} :: i < k && old(batch.Has(i, p)) ==> batch.Has(i, p)
  {
    seg, at := seg0, at0;
    got := batch.Get(k);
    if !got {
      return;
    }
    var written;
    seg, at, written := FillSlot(batch, k, segs, seg0, at0, rem);
    batch.lens := batch.lens[k := written];
  }

  /**
   Lays one packet, given as its segments, across slots from `out` on. All of it
   or none: on failure nothing before `out` and no continuation mark is touched.
   */
  method Spread(batch: Batch, out: nat, segs: seq<bytes>) returns (n: nat, ok: bool, noSlots: bool)
    requires batch.Valid() && out < batch.max && out <= |batch.descs|
    requires Proper(segs)
    modifies batch`free, batch`descs, batch`lens, batch`cont, batch.region
    ensures batch.Valid() && old(batch.descs) <= batch.descs
    ensures var ps := Spilled(Join(segs), batch.Room(), Hollow(segs));
            && ok == (out + |ps| <= batch.max && out + |ps| <= |batch.start|)
            && (ok ==> n == |ps| && Laid(batch, out, ps) && Marked(old(batch.cont), batch.cont, out, n))
            && (!ok ==> n == 0 && noSlots == (batch.max <= |batch.start|) && batch.cont == old(batch.cont))
    ensures forall i: nat, p: bytes {:trigger old(batch.Has(i, p))} ::
              i < out && old(batch.Has(i, p)) ==> batch.Has(i, p)
  {
    n, ok, noSlots := Lay(batch, out, segs);
    if ok {
      Mark(batch, out, n);
    }
  }

  /** Part way through a packet `w`: the pieces `done` are laid, and `rem` is still to come. */
  ghost predicate Laying(batch: Batch, out: nat, segs: seq<bytes>, seg: nat, at: nat,
                         w: bytes, done: seq<bytes>, rem: bytes)
    reads batch`descs, batch`lens, batch.region
  {
    && Stands(segs, seg, at, rem) && Laid(batch, out, done) && out + |done| <= |batch.descs|
    && batch.Room() > 0
    && Spilled(w, batch.Room(), Hollow(segs))
    == done + (if seg == |segs| then [] else Spilled(rem, batch.Room(), Hollow(segs)))
  }

  /** Why a packet does not fit: too few slots, or too few frames. */
  ghost predicate TooBig(batch: Batch, out: nat, segs: seq<bytes>, w: bytes, noSlots: bool) {
    && batch.Room() > 0 && out + |Spilled(w, batch.Room(), Hollow(segs))| > Min(batch.max, |batch.start|)
    && noSlots == (batch.max <= |batch.start|)
  }

  /** One turn of the copying loop: the next slot, or why there is none. */
  method LayNext(batch: Batch, out: nat, n: nat, segs: seq<bytes>, seg0: nat, at0: nat,
                 ghost w: bytes, ghost done0: seq<bytes>, ghost rem0: bytes)
    returns (ok: bool, noSlots: bool, seg: nat, at: nat, ghost done: seq<bytes>, ghost rem: bytes)
    requires batch.Valid() && seg0 < |segs| && |done0| == n
    requires Laying(batch, out, segs, seg0, at0, w, done0, rem0)
    modifies batch`free, batch`descs, batch`lens, batch.region
    ensures batch.Valid() && old(batch.descs) <= batch.descs
    ensures ok ==> Laying(batch, out, segs, seg, at, w, done, rem) && |done| == n + 1
    ensures ok ==> seg0 <= seg && (seg == seg0 ==> |rem| < |rem0|)
    ensures !ok ==> TooBig(batch, out, segs, w, noSlots)
    ensures forall i: nat, p: bytes {:trigger old(batch.Has(i, p))} ::
              i < out && old(batch.Has(i, p)) ==> batch.Has(i, p)
  {
    ghost var room := batch.Room();
    ok, noSlots, seg, at, done, rem := false, true, seg0, at0, done0, rem0;
    SpilledNext(done, rem, room, Hollow(segs));
    if out + n < batch.max {
      noSlots := false;
      assert forall j :: 0 <= j < |done| ==> batch.Has(out + j, done[j]);
      ok, seg, at := LayOne(batch, out + n, segs, seg, at, rem);
      if ok {
        ghost var c := Min(room, |rem|);
        LaidMore(batch, out, done, rem[..c]);
        done, rem := done + [rem[..c]], rem[c..];
      }
    }
  }

  /** The copying half of `Spread`. */
  method Lay(batch: Batch, out: nat, segs: seq<bytes>) returns (n: nat, ok: bool, noSlots: bool)
    requires batch.Valid() && out < batch.max && out <= |batch.descs|
    requires Proper(segs)
    modifies batch`free, batch`descs, batch`lens, batch.region
    ensures batch.Valid() && old(batch.descs) <= batch.descs
    ensures ok ==> var ps := Spilled(Join(segs), batch.Room(), Hollow(segs));
                   n == |ps| && Laid(batch, out, ps) && out + n <= Min(batch.max, |batch.start|)
    ensures !ok ==> n == 0 && TooBig(batch, out, segs, Join(segs), noSlots)
    ensures forall i: nat, p: bytes {:trigger old(batch.Has(i, p))} ::
              i < out && old(batch.Has(i, p)) ==> batch.Has(i, p)
  {
    var seg: nat, at: nat := 0, 0;
    n, ok, noSlots := 0, true, false;
    ghost var w := Join(segs);
    ghost var done: seq<bytes>, rem: bytes := [], w;
    StandsAtStart(segs, 0);
    assert segs[0..] == segs && [] + Spilled(w, batch.Room(), Hollow(segs)) == Spilled(w, batch.Room(), Hollow(segs));
    while seg < |segs| && ok
      invariant batch.Valid() && old(batch.descs) <= batch.descs
      invariant ok ==> Laying(batch, out, segs, seg, at, w, done, rem) && |done| == n
      invariant !ok ==> n == 0 && TooBig(batch, out, segs, w, noSlots)
      invariant forall i: nat, p: bytes {:trigger old(batch.Has(i, p))} ::
                  i < out && old(batch.Has(i, p)) ==> batch.Has(i, p)
      decreases ok, |segs| - seg, |rem|
    {
      ok, noSlots, seg, at, done, rem := LayNext(batch, out, n, segs, seg, at, w, done, rem);
      n := if ok then n + 1 else 0;
    }
  }

  lemma {:induction false} LaidMore(batch: Batch, out: nat, done: seq<bytes>, p: bytes)
    requires forall j :: 0 <= j < |done| ==> batch.Has(out + j, done[j])
    requires batch.Has(out + |done|, p)
    ensures Laid(batch, out, done + [p])
  {
  }

  /** The marks of a packet in slots `out..out + n`: continued, all but the last. */
  ghost predicate Marked(before: seq<bool>, after: seq<bool>, out: nat, n: nat) {
    |after| == |before| && forall i :: 0 <= i < |after| ==>
      after[i] == if out <= i < out + n then i < out + n - 1 else before[i]
  }

  method Mark(batch: Batch, out: nat, n: nat)
    requires batch.Valid() && 0 < n && out + n <= batch.max
    modifies batch`cont
    ensures batch.Valid() && Marked(old(batch.cont), batch.cont, out, n)
  {
    for i := out to out + n - 1
      invariant |batch.cont| == batch.max
      invariant forall j :: 0 <= j < batch.max ==> batch.cont[j] == if out <= j < i then true else old(batch.cont)[j]
    {
      batch.cont := batch.cont[i := true];
    }
    batch.cont := batch.cont[out + n - 1 := false];
  }

  // ------------------------------------------------------- one packet's slots

  /** Nothing past the slots filled so far is marked as continued. */
  ghost predicate Unmarked(batch: Batch, out: nat)
    reads batch`cont
  {
    forall i :: out <= i < |batch.cont| ==> !batch.cont[i]
  }

  /** The single-buffer path: copies the packet and records its length and metadata. */
  method DeliverOne(batch: Batch, out: nat, segs: seq<bytes>, off: Offload, time: nat, ghost acc: seq<Slot>)
    requires batch.Valid() && out < |batch.descs| && |acc| == out && batch.ShowsAll(acc) && Unmarked(batch, out)
    requires |segs| == 1 || |segs| == 3
    requires |Join(segs)| <= batch.Room()
    modifies batch`lens, batch`offs, batch`tss, batch.region
    ensures batch.Valid() && Unmarked(batch, out + 1)
    ensures batch.ShowsAll(acc + [Slot(Join(segs), false, off, time)])
  {
    forall i | 0 <= i < out
      ensures batch.Has(i, acc[i].data)
    {
      assert batch.Shows(i, acc[i]);
    }
    hide Join;
    var n := CopySegs(batch, out, segs);
    batch.lens := batch.lens[out := n];
    batch.offs := batch.offs[out := off];
    batch.tss := batch.tss[out := time];
  }

  method CopySegs(batch: Batch, out: nat, segs: seq<bytes>) returns (n: nat)
    requires batch.Valid() && out < |batch.descs| && (|segs| == 1 || |segs| == 3) && |Join(segs)| <= batch.Room()
    modifies batch.region
    ensures n == |Join(segs)| && batch.Data(out, n) == Join(segs)
    ensures forall i: nat, p: bytes {:trigger old(batch.Has(i, p))} ::
              i != out && old(batch.Has(i, p)) ==> batch.Has(i, p)
  {
    JoinThree(segs);
    if |segs| == 3 {
      n := CopyThree(batch, out, segs[0], segs[1], segs[2]);
    } else {
      batch.DataSize(out, 0);
      n := |segs[0]|;
      batch.Put(out, 0, segs[0], []);
    }
  }

  method CopyThree(batch: Batch, out: nat, a: bytes, b: bytes, c: bytes) returns (n: nat)
    requires batch.Valid() && out < |batch.descs| && |a| + |b| + |c| <= batch.Room()
    modifies batch.region
    ensures n == |a| + |b| + |c| && batch.Data(out, n) == a + b + c
    ensures forall i: nat, p: bytes {:trigger old(batch.Has(i, p))} ::
              i != out && old(batch.Has(i, p)) ==> batch.Has(i, p)
  {
    batch.DataSize(out, 0);
    batch.Put(out, 0, a, []);
    assert [] + a == a;
    batch.Put(out, |a|, b, a);
    batch.Put(out, |a| + |b|, c, a + b);
    n := |a| + |b| + |c|;
  }

  lemma {:induction false} JoinThree(segs: seq<bytes>)
    requires |segs| == 1 || |segs| == 3
    ensures |segs| == 1 ==> Join(segs) == segs[0]
    ensures |segs| == 3 ==> Join(segs) == segs[0] + segs[1] + segs[2]
  {
    assert Join(segs) == segs[0] + Join(segs[1..]);
    if |segs| == 1 {
      assert segs[1..] == [];
    } else {
      assert segs[1..] == [segs[1], segs[2]] && segs[1..][1..] == [segs[2]];
      assert Join([segs[2]]) == segs[2] + Join([]);
      assert Join(segs[1..]) == segs[1] + segs[2];
    }
  }

  /** The metadata of a chained packet: on its first slot, and cleared on the rest. */
  method Annotate(batch: Batch, out: nat, n: nat, off: Offload, time: nat)
    requires batch.Valid() && 0 < n && out + n <= batch.max
    modifies batch`offs, batch`tss
    ensures batch.Valid()
    ensures forall i :: 0 <= i < batch.max ==>
              batch.offs[i] == (if i == out then off else if out < i < out + n then NONE else old(batch.offs)[i]) &&
              batch.tss[i] == (if i == out then time else if out < i < out + n then 0 else old(batch.tss)[i])
  {
    batch.offs := batch.offs[out := off];
    batch.tss := batch.tss[out := time];
    for i := out + 1 to out + n
      invariant |batch.offs| == batch.max && |batch.tss| == batch.max
      invariant forall j :: 0 <= j < batch.max ==>
                  batch.offs[j] == (if j == out then off else if out < j < i then NONE else old(batch.offs)[j]) &&
                  batch.tss[j] == (if j == out then time else if out < j < i then 0 else old(batch.tss)[j])
    {
      batch.offs := batch.offs[i := NONE];
      batch.tss := batch.tss[i := 0];
    }
  }

  /** The chained path: the whole packet in as many slots as it takes, or nothing. */
  method DeliverChain(batch: Batch, out: nat, segs: seq<bytes>, off: Offload, time: nat, ghost acc: seq<Slot>)
    returns (n: nat, ok: bool, noSlots: bool)
    requires batch.Valid() && out < batch.max && out <= |batch.descs|
    requires |acc| == out && batch.ShowsAll(acc) && Unmarked(batch, out)
    requires Proper(segs)
    modifies batch`free, batch`descs, batch`lens, batch`cont, batch`offs, batch`tss, batch.region
    ensures batch.Valid() && old(batch.descs) <= batch.descs && Unmarked(batch, out + n)
    ensures var ps := Spilled(Join(segs), batch.Room(), Hollow(segs));
            && ok == (out + |ps| <= batch.max && out + |ps| <= |batch.start|)
            && n == (if ok then |ps| else 0)
            && (!ok ==> noSlots == (batch.max <= |batch.start|))
            && batch.ShowsAll(acc + (if ok then SlotsAs(ps, off, time) else []))
  {
    n, ok, noSlots := Spread(batch, out, segs);
    forall i | 0 <= i < out
      ensures batch.Shows(i, acc[i])
    {
      assert old(batch.Shows(i, acc[i]) && batch.Has(i, acc[i].data));
    }
    if ok {
      Annotate(batch, out, n, off, time);
      ChainShown(batch, Spilled(Join(segs), batch.Room(), Hollow(segs)), off, time, acc);
    } else {
      assert acc + [] == acc;
    }
  }

  lemma {:induction false} ChainShown(batch: Batch, ps: seq<bytes>, off: Offload, time: nat, acc: seq<Slot>)
    requires batch.Valid() && ps != [] && batch.ShowsAll(acc) && Laid(batch, |acc|, ps)
    requires && |acc| + |ps| <= batch.max
             && forall i :: |acc| <= i < |acc| + |ps| ==>
                  && batch.cont[i] == (i < |acc| + |ps| - 1)
                  && batch.offs[i] == (if i == |acc| then off else NONE)
                  && batch.tss[i] == (if i == |acc| then time else 0)
    ensures batch.ShowsAll(acc + SlotsAs(ps, off, time))
  {
    var ss := SlotsAs(ps, off, time);
    assert batch.Has(|acc| + (|ps| - 1), ps[|ps| - 1]);
    forall i | 0 <= i < |acc + ss|
      ensures batch.Shows(i, (acc + ss)[i])
    {
      if i >= |acc| {
        assert batch.Has(|acc| + (i - |acc|), ps[i - |acc|]);
      }
    }
  }

  /** The batch shows the slots `acc`, and could take more. */
  ghost predicate Holding(batch: Batch, acc: seq<Slot>)
    reads batch, batch.region
  {
    batch.Valid() && batch.ShowsAll(acc) && Unmarked(batch, |acc|)
  }

  /** The verdict on an item is the right one, and its slots are in the batch after `acc`. */
  ghost predicate Outcome(batch: Batch, item: Item, chain: bool, acc: seq<Slot>, v: Verdict)
    reads batch, batch.region
  {
    && batch.Room() > 0
    && v == Judge(Mode(chain, batch.Room()), item, |acc|, batch.max, |batch.start|)
    && Holding(batch, acc + Adds(v, item, batch.Room()))
  }

  lemma {:induction false} Nothing(batch: Batch, acc: seq<Slot>)
    requires Holding(batch, acc)
    ensures Holding(batch, acc + [])
  {
    assert acc + [] == acc;
  }

  lemma {:induction false} OneSlot(item: Item, room: nat)
    requires item.Packet? && 0 < room && |item.wire| <= room
    ensures SlotsOf(item, room) == [Slot(item.wire, false, item.off, item.time)]
  {
  }

  /** A packet with a buffer to start in: one slot if it fits, several if the ring chains. */
  method Place(batch: Batch, out: nat, segs: seq<bytes>, off: Offload, time: nat, chain: bool, ghost acc: seq<Slot>)
    returns (v: Verdict)
    requires Holding(batch, acc) && |acc| == out < batch.max && out < |batch.descs|
    requires |segs| == 1 || |segs| == 3
    requires |Join(segs)| > 16 ==> forall i :: 0 <= i < |segs| ==> segs[i] != []
    modifies batch, batch.region
    ensures Outcome(batch, Packet(false, Join(segs), off, time), chain, acc, v)
  {
    ghost var item := Packet(false, Join(segs), off, time);
    if JoinedLen(segs) <= batch.Room() {
      DeliverOne(batch, out, segs, off, time, acc);
      OneSlot(item, batch.Room());
      return Give(1);
    }
    if !chain {
      Nothing(batch, acc);
      return Skip(false);
    }
    PiecesWhole(item.wire, batch.Room());
    SpilledIff(item.wire, batch.Room(), Hollow(segs));
    var n, ok, noSlots := DeliverChain(batch, out, segs, off, time, acc);
    if !ok {
      return if noSlots && out == 0 then Skip(true) else Leave;
    }
    return Give(n);
  }

  function JoinedLen(segs: seq<bytes>): (n: nat)
    requires |segs| == 1 || |segs| == 3
    ensures n == |Join(segs)|
  {
    JoinThree(segs);
    if |segs| == 1 then |segs[0]| else |segs[0]| + |segs[1]| + |segs[2]|
  }
}
