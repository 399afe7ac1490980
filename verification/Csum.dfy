/**
 Finishing the partial L4 checksum of a received frame in place. The offsets come
 from the kernel or a guest and are believed only where they fit the frame.
 */
module Csum {
  import opened Words
  import opened Bytes
  import opened Offloads
  import opened Checksum

  /** The checksum that makes a sum come to all ones; zero is sent as all ones. */
  function Closing(s: nat): (c: u16)
    ensures c > 0 && (s + c) % 0xffff == 0
  {
    Completes(s);
    if Fold(s) == 0xffff then
      assert s + 0xffff == s + (0xffff - Fold(s)) + 0xffff * 1;
      AddMultiple(s + (0xffff - Fold(s)), 1);
      0xffff
    else 0xffff - Fold(s)
  }

  // ------------------------------------------------------------ correctness

  /** A summed range with a two-byte checksum field in it. */
  datatype Range = Range(pre: bytes, x: u8, y: u8, post: bytes) {
    function All(): bytes { pre + [x, y] + post }

    /** The range once its field holds `c`. */
    function With(c: u16): Range { Range(pre, ToBE16(c)[0], ToBE16(c)[1], post) }

    /** The sum of everything but the field. */
    function Rest(): nat { Sum(pre + [0, 0] + post) }

    /** What `onesComplement` would store: its accumulator is 32 bits wide. */
    function Stored(): u16 { Closing(Sum(All()) % 0x1_0000_0000) }

    /** The finished range and the partial it replaced cancel, as section 1 of RFC 1071 asks. */
    predicate Verifies() { Fold(Sum(With(Stored()).All()) + BE16([x, y], 0)) == 0xffff }
  }

  lemma {:induction false} Carries(r: Range, q: nat, s: nat)
    requires q == Sum(r.All()) / 0x1_0000_0000 && s == Sum(r.All()) % 0x1_0000_0000
    ensures Sum(r.All()) == s + q + 0xffff * (65537 * q)
  {
  }

  lemma {:induction false} OddWeight(x: u8, y: u8)
    ensures BE16([y, x], 0) == 256 * BE16([x, y], 0) - 0xffff * x
  {
  }

  /**
   At an even place the completion is right exactly when the accumulator's lost
   carries come to a multiple of 65535.
   */
  lemma {:induction false} EvenIff(r: Range)
    requires |r.pre| % 2 == 0
    ensures r.Verifies() <==> (Sum(r.All()) / 0x1_0000_0000) % 0xffff == 0
  {
    var q, s, c := Sum(r.All()) / 0x1_0000_0000, Sum(r.All()) % 0x1_0000_0000, r.Stored();
    var n := r.With(c);
    FieldWeight(r.pre, r.x, r.y, r.post);
    FieldWeight(n.pre, n.x, n.y, n.post);
    Carries(r, q, s);
    var total, k := Sum(n.All()) + BE16([r.x, r.y], 0), (s + c) / 0xffff;
    assert total == q + 0xffff * (65537 * q + k);
    AddMultiple(q, 65537 * q + k);
    AllOnes(total);
  }

  /** At an odd place the field is summed byte-swapped, and the rest must make up for it. */
  lemma {:induction false} OddIff(r: Range)
    requires |r.pre| % 2 == 1
    ensures r.Verifies() <==> (65280 * r.Rest() + 256 * (Sum(r.All()) / 0x1_0000_0000)) % 0xffff == 0
  {
    var q, s, c, rest := Sum(r.All()) / 0x1_0000_0000, Sum(r.All()) % 0x1_0000_0000, r.Stored(), r.Rest();
    var n := r.With(c);
    FieldWeight(r.pre, r.x, r.y, r.post);
    FieldWeight(n.pre, n.x, n.y, n.post);
    OddWeight(r.x, r.y);
    OddWeight(n.x, n.y);
    Carries(r, q, s);
    var p, total, k := BE16([r.x, r.y], 0), Sum(n.All()) + BE16([r.x, r.y], 0), (s + c) / 0xffff;
    assert s + c == 0xffff * k;
    var m := 256 * k - n.x - p + 256 * r.x + 256 * 65537 * q - rest;
    assert total == 65280 * rest + 256 * q + 0xffff * m;
    AddMultiple(65280 * rest + 256 * q, m);
    AllOnes(total);
  }

  /** No range of up to 131074 bytes loses a carry. */
  lemma {:induction false} NoCarryLost(b: bytes)
    requires |b| <= 131074
    ensures Sum(b) / 0x1_0000_0000 == 0
  {
    SumBound(b, 0);
  }

  /**
   For ranges the accumulator can hold: at an even offset completion is always
   right, and at an odd one just when 257 divides the sum of the rest.
   */
  lemma {:induction false} CompletionCorrect(r: Range)
    requires |r.All()| <= 131074
    ensures r.Verifies() <==> |r.pre| % 2 == 0 || r.Rest() % 257 == 0
  {
    NoCarryLost(r.All());
    if |r.pre| % 2 == 0 {
      EvenIff(r);
    } else {
      OddIff(r);
      Divides257(r.Rest());
    }
  }

  lemma {:induction false} Divides257(n: nat)
    ensures (65280 * n) % 0xffff == 0 <==> n % 257 == 0
  {
    if (65280 * n) % 0xffff == 0 {
      var m := 65280 * n / 0xffff;
      assert n == 257 * (n - m);
    }
    if n % 257 == 0 {
      var t := n / 257;
      assert 65280 * n == 0xffff * (256 * t);
      ModUnique(65280 * n, 0xffff, 256 * t, 0);
    }
  }

  /** Odd offsets really do go wrong. */
  lemma {:induction false} OddGoesWrong()
    ensures !Range([1], 0, 0, []).Verifies()
  {
    var r := Range([1], 0, 0, []);
    assert r.pre + [0, 0] + r.post == [1, 0, 0];
    assert SumFrom([1, 0, 0], 2) == 0;
    CompletionCorrect(r);
  }

  /** All ones, from an even place on, add up to 65535 a word. */
  lemma {:induction false} OnesSum(b: bytes, i: nat)
    requires i <= |b| && |b| % 2 == 0 && i % 2 == 0 && forall k :: 0 <= k < |b| ==> b[k] == 0xff
    ensures SumFrom(b, i) == 0xffff * ((|b| - i) / 2)
    decreases |b| - i
  {
    if i < |b| {
      OnesSum(b, i + 2);
    }
  }

  /** So do even ones, once the range is too long for the accumulator: 131076 bytes of ones. */
  lemma {:induction false} EvenGoesWrong()
    ensures !Range([], 0xff, 0xff, seq(131074, _ => 0xff)).Verifies()
  {
    hide Range.Verifies;
    var r := Range([], 0xff, 0xff, seq(131074, _ => 0xff));
    assert |r.All()| == 131076;
    OnesSum(r.All(), 0);
    assert Sum(r.All()) == 0xffff * 65538;
    EvenIff(r);
  }

  // ------------------------------------------------------- the frame's bytes

  predicate IsTpid(t: u16) { t in {0x8100, 0x88a8, 0x9100, 0x9200, 0x9300} }

  /** Where the type field is, past every tag from `l3` on. */
  function TypeAt(frame: bytes, l3: nat): (at: nat)
    ensures at >= l3
    decreases |frame| - l3
  {
    if l3 + 4 <= |frame| && IsTpid(BE16(frame, l3)) then TypeAt(frame, l3 + 4) else l3
  }

  /** Where the L3 header says the packet ends; the end of the frame when there is no telling. */
  function ClaimedEnd(frame: bytes, l3: nat): nat {
    var hdr := l3 + 2;
    if hdr + 8 <= |frame| <= hdr + 0xffff then
      var t := BE16(frame, l3);
      if t == 0x0800 then hdr + BE16(frame, hdr + 2)
      else if t == 0x86dd then hdr + 40 + BE16(frame, hdr + 4)
      else |frame|
    else |frame|
  }

  /** The claimed end, if it leaves off at most padding and keeps the field in; otherwise the whole frame. */
  function SumEnd(frame: bytes, at: nat): (end: nat)
    requires at + 2 <= |frame|
    ensures at + 2 <= end <= |frame|
  {
    var l3 := TypeAt(frame, 12);
    var end := ClaimedEnd(frame, l3);
    if end > |frame| || end < at + 2 || (end < |frame| && |frame| > l3 + 2 + 46) then |frame| else end
  }

  /** Whether the offsets leave the two-byte field inside the frame. */
  predicate Fits(len: nat, start: nat, off: nat) { start + off + 2 <= len }

  /** The range that is summed, around the field. */
  function Summed(frame: bytes, start: nat, off: nat): Range
    requires Fits(|frame|, start, off)
  {
    var at := start + off;
    Range(frame[start..at], frame[at], frame[at + 1], frame[at + 2..SumEnd(frame, at)])
  }

  lemma {:induction false} SummedIs(frame: bytes, start: nat, off: nat)
    requires Fits(|frame|, start, off)
    ensures Summed(frame, start, off).All() == frame[start..SumEnd(frame, start + off)]
  {
  }

  /** The frame once its checksum is finished. */
  function Completed(frame: bytes, start: nat, off: nat): (now: bytes)
    requires Fits(|frame|, start, off)
    ensures |now| == |frame|
  {
    Splice(frame, start + off, ToBE16(Summed(frame, start, off).Stored()))
  }

  /** Only the field changes, and the finished range holds the checksum computed for it. */
  lemma {:induction false} CompletedRange(frame: bytes, start: nat, off: nat)
    requires Fits(|frame|, start, off)
    ensures var r, now := Summed(frame, start, off), Completed(frame, start, off);
            && now[start..SumEnd(frame, start + off)] == r.With(r.Stored()).All()
            && now[..start + off] == frame[..start + off] && now[start + off + 2..] == frame[start + off + 2..]
  {
    var r, now, at := Summed(frame, start, off), Completed(frame, start, off), start + off;
    var c := ToBE16(r.Stored());
    SpliceOwn(frame, at, c);
    assert c == [c[0], c[1]];
    SpliceApart(frame, at, c, start, at);
    SpliceApart(frame, at, c, at + 2, SumEnd(frame, at));
    var end := SumEnd(frame, at);
    assert now[start..end] == now[start..at] + now[at..at + 2] + now[at + 2..end];
  }

  /**
   The finished frame: its summed range and the partial that was there come to
   all ones, at every even offset, and at an odd one just when 257 divides the
   sum of the rest.
   */
  lemma {:induction false} CompletedVerifies(frame: bytes, start: nat, off: nat)
    requires Fits(|frame|, start, off) && SumEnd(frame, start + off) - start <= 131074
    ensures var end, partial := SumEnd(frame, start + off), BE16(frame, start + off);
            Fold(Sum(Completed(frame, start, off)[start..end]) + partial) == 0xffff
            <==> off % 2 == 0 || Summed(frame, start, off).Rest() % 257 == 0
  {
    SummedIs(frame, start, off);
    CompletedRange(frame, start, off);
    CompletionCorrect(Summed(frame, start, off));
  }

  // ------------------------------------------------------------ the code

  /** The folded complement of the words of `a[lo..hi]`, summed in 32 bits. */
  method OnesComplement(a: array<u8>, lo: nat, hi: nat) returns (c: u16)
    requires lo <= hi <= a.Length
    ensures c == 0xffff - Fold(Sum(a[lo..hi]) % 0x1_0000_0000)
  {
    var sum := SumWords(a, lo, hi);
    var folded := FoldDown(sum);
    c := 0xffff - folded;
  }

  method SumWords(a: array<u8>, lo: nat, hi: nat) returns (sum: u32)
    requires lo <= hi <= a.Length
    ensures sum == Sum(a[lo..hi]) % 0x1_0000_0000
  {
    var i := lo;
    sum := 0;
    ghost var b := a[lo..hi];
    ghost var full: nat, k: nat := 0, 0;
    while i + 1 < hi
      invariant i == lo + 2 * k <= hi
      invariant full + SumFrom(b, i - lo) == Sum(b) && sum == Wrap32(full)
    {
      var w := BE16(a[..], i);
      assert a[i] == b[i - lo] && a[i + 1] == b[i - lo + 1];
      WrapStep(full, w);
      sum, full, k := Wrap32(sum + w), full + w, k + 1;
      i := i + 2;
    }
    if (hi - lo) % 2 == 1 {
      var w := BE16([a[hi - 1], 0], 0);
      assert a[hi - 1] == b[hi - 1 - lo];
      WrapStep(full, w);
      sum, full := Wrap32(sum + w), full + w;
    }
  }

  lemma {:induction false} WrapStep(full: nat, w: nat)
    ensures Wrap32(Wrap32(full) + w) == Wrap32(full + w)
  {
  }

  method FoldDown(s: u32) returns (sum: u32)
    ensures sum == Fold(s)
  {
    sum := s;
    while sum / 0x10000 != 0
      invariant Fold(sum) == Fold(s)
      decreases sum
    {
      CarryKeepsFold(sum);
      sum := sum % 0x10000 + sum / 0x10000;
    }
    CarryKeepsFold(sum);
  }

  method FindType(a: array<u8>, base: nat, len: nat) returns (l3: nat)
    requires base + len <= a.Length
    ensures l3 == TypeAt(a[base..base + len], 12)
  {
    l3 := 12;
    while l3 + 4 <= len && IsTpid(BE16(a[..], base + l3))
      invariant TypeAt(a[base..base + len], 12) == TypeAt(a[base..base + len], l3)
    {
      l3 := l3 + 4;
    }
  }

  /** How far the sum runs in the frame at `base`. */
  method FindEnd(a: array<u8>, base: nat, len: nat, at: nat) returns (end: nat)
    requires base + len <= a.Length && at + 2 <= len
    ensures end == SumEnd(a[base..base + len], at)
  {
    var l3 := FindType(a, base, len);
    end := len;
    var hdr := l3 + 2;
    if hdr + 8 <= len && len <= hdr + 0xffff {
      var t := BE16(a[..], base + l3);
      if t == 0x0800 {
        end := hdr + BE16(a[..], base + hdr + 2);
      } else if t == 0x86dd {
        end := hdr + 40 + BE16(a[..], base + hdr + 4);
      }
    }
    if end > len || end < at + 2 || (end < len && len > l3 + 2 + 46) {
      end := len;
    }
  }

  /** Finishes the checksum of the frame of `len` bytes at `base`, or refuses and touches nothing. */
  method CompleteL4(a: array<u8>, base: nat, len: nat, start: int, off: int) returns (ok: bool)
    requires base + len <= a.Length
    modifies a
    ensures ok <==> 0 <= start && 0 <= off && Fits(len, start, off)
    ensures ok ==> a[..] == Splice(old(a[..]), base, Completed(old(a[base..base + len]), start, off))
    ensures !ok ==> a[..] == old(a[..])
  {
    if start < 0 || off < 0 || start > len || off > len - start - 2 {
      return false;
    }
    ghost var was, frame := a[..], a[base..base + len];
    assert was[base..base + len] == frame;
    var sum := FinishedSum(a, base, len, start, off);
    assert Completed(frame, start, off) == Splice(frame, start + off, ToBE16(sum));
    SpliceInside(was, base, len, start + off, ToBE16(sum));
    Blit(a, base + start + off, ToBE16(sum));
    return true;
  }

  method FinishedSum(a: array<u8>, base: nat, len: nat, start: nat, off: nat) returns (sum: u16)
    requires base + len <= a.Length && Fits(len, start, off)
    ensures sum == Summed(a[base..base + len], start, off).Stored()
  {
    hide SumFrom;
    ghost var frame := a[base..base + len];
    var end := FindEnd(a, base, len, start + off);
    sum := OnesComplement(a, base + start, base + end);
    SummedIs(frame, start, off);
    SliceOfSlice(a[..], base, len, start, end - start);
    assert a[..][base..base + len] == frame && a[..][base + start..base + end] == a[base + start..base + end];
    if sum == 0 {
      sum := 0xffff;
    }
  }

  /** Writing inside a window is replacing the window by itself with the writing in it. */
  lemma {:induction false} SpliceInside(b: bytes, base: nat, len: nat, at: nat, s: bytes)
    requires base + len <= |b| && at + |s| <= len
    ensures Splice(b, base + at, s) == Splice(b, base, Splice(b[base..base + len], at, s))
  {
  }

  // ------------------------------------------------------------- a batch

  /** The metadata of a finished frame: nobody has to complete it again. */
  function Cleared(o: Offload): (r: Offload)
    ensures !r.NeedsCsum() && r.(flags := o.flags) == o && r.flags == o.flags - o.flags % 2
  {
    assert Pow2(1) == 2;
    AndNotClearsMask(o.flags, 1);
    o.(flags := AndNot(o.flags, 1))
  }

  /** Slot `i` or the one before it is marked as going on in the next; no marks at all mean no. */
  predicate Chained(cont: seq<bool>, i: nat)
    requires cont == [] || i < |cont|
  {
    cont != [] && (cont[i] || (i > 0 && cont[i - 1]))
  }

  /** What becomes of one frame and its metadata, and whether it could not be finished. */
  datatype Finished = Finished(frame: bytes, off: Offload, bad: bool)

  function Complete(frame: bytes, o: Offload, chained: bool): (f: Finished)
    ensures |f.frame| == |frame|
  {
    if !o.NeedsCsum() || o.Segmented() || chained then Finished(frame, o, false)
    else if Fits(|frame|, o.csumStart, o.csumOff) then
      Finished(Completed(frame, o.csumStart, o.csumOff), Cleared(o), false)
    else Finished(frame, o, true)
  }

  /** A second pass changes nothing, and finds the same frames impossible. */
  lemma {:induction false} SecondPass(frame: bytes, o: Offload, chained: bool)
    ensures var f := Complete(frame, o, chained); Complete(f.frame, f.off, chained) == f
  {
  }

  /** A frame's place in memory. */
  datatype Window = Window(base: nat, len: nat)

  predicate Apart(v: Window, w: Window) { v.base + v.len <= w.base || w.base + w.len <= v.base }

  ghost predicate Placed(ws: seq<Window>, size: nat) {
    && (forall i :: 0 <= i < |ws| ==> ws[i].base + ws[i].len <= size)
    && (forall i, j :: 0 <= i < j < |ws| ==> Apart(ws[i], ws[j]))
  }

  function At(mem: bytes, w: Window): bytes
    requires w.base + w.len <= |mem|
  {
    mem[w.base..w.base + w.len]
  }

  /** Memory in which the first `n` frames have come to `goal` and the others are as they were. */
  ghost predicate Replaced(was: bytes, now: bytes, ws: seq<Window>, goal: seq<bytes>, n: nat) {
    && |was| == |now| && Placed(ws, |was|) && |goal| == |ws|
    && forall i :: 0 <= i < |ws| ==> At(now, ws[i]) == if i < n then goal[i] else At(was, ws[i])
  }

  /** What lies outside every frame is untouched. */
  ghost predicate SameOutside(was: bytes, now: bytes, ws: seq<Window>) {
    |was| == |now| && forall w: Window {:trigger At(now, w)} ::
      w.base + w.len <= |was| && (forall i :: 0 <= i < |ws| ==> Apart(w, ws[i])) ==> At(now, w) == At(was, w)
  }

  lemma {:induction false} SpliceOther(mid: bytes, v: Window, s: bytes, w: Window)
    requires v.base + v.len <= |mid| && |s| == v.len && w.base + w.len <= |mid| && Apart(v, w)
    ensures At(Splice(mid, v.base, s), w) == At(mid, w)
  {
    SpliceApart(mid, v.base, s, w.base, w.base + w.len);
  }

  lemma {:induction false} ReplaceNext(was: bytes, mid: bytes, ws: seq<Window>, goal: seq<bytes>, n: nat)
    requires n < |ws| && Replaced(was, mid, ws, goal, n) && |goal[n]| == ws[n].len
    ensures Replaced(was, Splice(mid, ws[n].base, goal[n]), ws, goal, n + 1)
  {
    SpliceOwn(mid, ws[n].base, goal[n]);
    forall i | 0 <= i < |ws| && i != n
      ensures At(Splice(mid, ws[n].base, goal[n]), ws[i]) == At(mid, ws[i])
    {
      assert if i < n then Apart(ws[i], ws[n]) else Apart(ws[n], ws[i]);
      SpliceOther(mid, ws[n], goal[n], ws[i]);
    }
  }

  lemma {:induction false} OutsideNext(was: bytes, mid: bytes, ws: seq<Window>, n: nat, s: bytes)
    requires n < |ws| && Placed(ws, |mid|) && SameOutside(was, mid, ws) && |s| == ws[n].len
    ensures SameOutside(was, Splice(mid, ws[n].base, s), ws)
  {
    forall w: Window | w.base + w.len <= |was| && (forall i :: 0 <= i < |ws| ==> Apart(w, ws[i]))
      ensures At(Splice(mid, ws[n].base, s), w) == At(was, w)
    {
      assert Apart(w, ws[n]);
      SpliceOther(mid, ws[n], s, w);
      assert At(mid, w) == At(was, w);
    }
  }

  /** What the batch at `ws` should come to. */
  ghost function Goals(mem: bytes, ws: seq<Window>, offs: seq<Offload>, cont: seq<bool>): (fs: seq<Finished>)
    requires Placed(ws, |mem|) && |offs| == |ws| && (cont == [] || |cont| == |ws|)
    ensures |fs| == |ws|
    ensures forall i :: 0 <= i < |ws| ==> fs[i] == Complete(At(mem, ws[i]), offs[i], Chained(cont, i))
  {
    seq(|ws|, i requires 0 <= i < |ws| => Complete(At(mem, ws[i]), offs[i], Chained(cont, i)))
  }

  ghost function FramesOf(fs: seq<Finished>): (r: seq<bytes>)
    ensures |r| == |fs| && forall i :: 0 <= i < |fs| ==> r[i] == fs[i].frame
  {
    seq(|fs|, i requires 0 <= i < |fs| => fs[i].frame)
  }

  ghost function Bads(fs: seq<Finished>, n: nat): nat
    requires n <= |fs|
  {
    if n == 0 then 0 else Bads(fs, n - 1) + (if fs[n - 1].bad then 1 else 0)
  }

  /** Brings every window to its goal, with the metadata to match; what lies outside them is untouched. */
  method CompleteOffloads(a: array<u8>, ws: seq<Window>, offs0: seq<Offload>, cont: seq<bool>)
    returns (offs: seq<Offload>, bad: nat)
    requires Placed(ws, a.Length) && |offs0| == |ws| && (cont == [] || |cont| == |ws|)
    modifies a
    ensures var goal := Goals(old(a[..]), ws, offs0, cont);
            && Replaced(old(a[..]), a[..], ws, FramesOf(goal), |ws|) && SameOutside(old(a[..]), a[..], ws)
            && |offs| == |ws| && (forall i :: 0 <= i < |ws| ==> offs[i] == goal[i].off)
            && bad == Bads(goal, |ws|)
  {
    hide Complete, Splice, Placed, Replaced, SameOutside, Bads, Goals;
    ghost var was, goal := a[..], Goals(a[..], ws, offs0, cont);
    offs, bad := offs0, 0;
    NoneReplaced(was, ws, FramesOf(goal), goal);
    for i := 0 to |ws|
      invariant Replaced(was, a[..], ws, FramesOf(goal), i) && SameOutside(was, a[..], ws)
      invariant |offs| == |ws| && forall j {:trigger offs[j]} :: 0 <= j < |ws| ==>
                offs[j] == if j < i then goal[j].off else offs0[j]
      invariant bad == Bads(goal, i)
    {
      ghost var mid := a[..];
      NotYet(was, mid, ws, FramesOf(goal), i);
      var o, unfinished := CompleteSlot(a, ws[i], offs0[i], Chained(cont, i));
      assert goal[i] == Complete(At(was, ws[i]), offs0[i], Chained(cont, i));
      ReplaceNext(was, mid, ws, FramesOf(goal), i);
      OutsideNext(was, mid, ws, i, goal[i].frame);
      BadsNext(goal, i);
      offs := offs[i := o];
      if unfinished {
        bad := bad + 1;
      }
    }
  }

  lemma {:induction false} NoneReplaced(was: bytes, ws: seq<Window>, frames: seq<bytes>, goal: seq<Finished>)
    requires Placed(ws, |was|) && |frames| == |ws| && |goal| == |ws|
    ensures Replaced(was, was, ws, frames, 0) && SameOutside(was, was, ws) && Bads(goal, 0) == 0
  {
  }

  lemma {:induction false} NotYet(was: bytes, mid: bytes, ws: seq<Window>, frames: seq<bytes>, i: nat)
    requires Replaced(was, mid, ws, frames, i) && i < |ws|
    ensures ws[i].base + ws[i].len <= |was| == |mid| && At(mid, ws[i]) == At(was, ws[i])
  {
  }

  lemma {:induction false} BadsNext(goal: seq<Finished>, i: nat)
    requires i < |goal|
    ensures Bads(goal, i + 1) == Bads(goal, i) + if goal[i].bad then 1 else 0
  {
  }

  /** A second pass over the batch leaves every frame, every flag and the count as they are. */
  lemma {:induction false} SecondPassBatch(was: bytes, now: bytes, ws: seq<Window>, offs0: seq<Offload>,
                                           offs: seq<Offload>, cont: seq<bool>)
    requires Placed(ws, |was|) && |offs0| == |offs| == |ws| && (cont == [] || |cont| == |ws|)
    requires var goal := Goals(was, ws, offs0, cont);
             Replaced(was, now, ws, FramesOf(goal), |ws|) && forall i :: 0 <= i < |ws| ==> offs[i] == goal[i].off
    ensures Goals(now, ws, offs, cont) == Goals(was, ws, offs0, cont)
    ensures Frames(now, ws) == FramesOf(Goals(now, ws, offs, cont))
  {
    var goal := Goals(was, ws, offs0, cont);
    forall i | 0 <= i < |ws|
      ensures Goals(now, ws, offs, cont)[i] == goal[i]
    {
      SecondPass(At(was, ws[i]), offs0[i], Chained(cont, i));
    }
  }

  ghost function Frames(mem: bytes, ws: seq<Window>): (fs: seq<bytes>)
    requires Placed(ws, |mem|)
    ensures |fs| == |ws| && forall i :: 0 <= i < |ws| ==> fs[i] == At(mem, ws[i])
  {
    seq(|ws|, i requires 0 <= i < |ws| => At(mem, ws[i]))
  }

  method CompleteSlot(a: array<u8>, w: Window, o: Offload, chained: bool) returns (off: Offload, bad: bool)
    requires w.base + w.len <= a.Length
    modifies a
    ensures var f := Complete(At(old(a[..]), w), o, chained);
            a[..] == Splice(old(a[..]), w.base, f.frame) && off == f.off && bad == f.bad
  {
    hide Splice, Completed, Cleared;
    off, bad := o, false;
    ghost var was := a[..];
    assert At(was, w) == a[w.base..w.base + w.len];
    SpliceSame(was, w);
    if o.NeedsCsum() && !o.Segmented() && !chained {
      var ok := CompleteL4(a, w.base, w.len, o.csumStart, o.csumOff);
      if ok {
        off := Cleared(o);
      }
      bad := !ok;
    }
  }

  lemma {:induction false} SpliceSame(b: bytes, w: Window)
    requires w.base + w.len <= |b|
    ensures Splice(b, w.base, At(b, w)) == b
  {
  }
}
