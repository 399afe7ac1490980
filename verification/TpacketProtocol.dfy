/**
 TPACKET_V3 as a protocol of two parties over a ring of blocks. The kernel fills
 blocks in ring order and only those it owns; the reader takes the packets of
 the block it is on, over any number of calls, and hands the block back empty.
 Steps of the two interleave in any way.
 */
module TpacketProtocol {
  import opened Words
  import opened Bytes
  import opened Tpacket

  datatype Block = Kernel | User(items: seq<Item>)

  /** The call in progress: slots filled, slots in the batch, frames free when it began. */
  datatype Call = Call(out: nat, max: nat, avail: nat)

  /** `rest` is what is left of the reader's block once it has begun on it. */
  datatype Rest = Unread | Left(items: seq<Item>)

  /** One packet's fate, as the reader decided it. */
  datatype Fate = Fate(item: Item, given: bool, when: Call)

  datatype State = State(
    blocks: seq<Block>, reader: nat, ready: nat, rest: Rest, call: Call,
    published: seq<Item>, log: seq<Fate>, delivered: seq<bytes>, oversize: nat)

  datatype Step = KernelFill(items: seq<Item>) | BeginCall(max: nat, avail: nat) | ReadItem | HandBack

  function At(s: State, j: nat): (i: nat)
    requires s.blocks != []
    ensures i < |s.blocks|
  {
    (s.reader + j) % |s.blocks|
  }

  lemma {:induction false} AtZero(s: State)
    requires Shaped(s)
    ensures At(s, 0) == s.reader
  {
    ModUnique(s.reader, |s.blocks|, 0, s.reader);
  }

  ghost predicate Shaped(s: State) { s.blocks != [] && s.reader < |s.blocks| && s.ready <= |s.blocks| }

  /** What the reader has still to see of the block it is on. */
  function Current(s: State): seq<Item>
    requires Shaped(s) && s.blocks[s.reader].User?
  {
    if s.rest.Left? then s.rest.items else s.blocks[s.reader].items
  }

  ghost predicate Enabled(m: Mode, s: State, step: Step)
    requires Shaped(s)
  {
    match step
    case KernelFill(_) => s.ready < |s.blocks| && s.blocks[At(s, s.ready)].Kernel?
    case BeginCall(_, _) => true
    case ReadItem => m.room > 0 && s.call.out < s.call.max && s.blocks[s.reader].User? && Current(s) != []
    case HandBack => s.blocks[s.reader].User? && Current(s) == []
  }

  ghost function Next(m: Mode, s: State, step: Step): State
    requires Shaped(s) && Enabled(m, s, step)
  {
    match step
    case KernelFill(items) =>
      s.(blocks := s.blocks[At(s, s.ready) := User(items)], ready := s.ready + 1, published := s.published + items)
    case BeginCall(max, avail) => s.(call := Call(0, max, avail))
    case HandBack =>
      s.(blocks := s.blocks[s.reader := Kernel], reader := At(s, 1), rest := Unread,
         ready := if s.ready == 0 then 0 else s.ready - 1)
    case ReadItem =>
      var cur := Current(s);
      match Judge(m, cur[0], s.call.out, s.call.max, s.call.avail)
      case Leave => s.(rest := Left(cur))
      case Skip(_) =>
        s.(rest := Left(cur[1..]), log := s.log + [Fate(cur[0], false, s.call)], oversize := s.oversize + 1)
      case Give(n) =>
        s.(rest := Left(cur[1..]), log := s.log + [Fate(cur[0], true, s.call)],
           delivered := s.delivered + [cur[0].wire], call := s.call.(out := s.call.out + n))
  }

  /** What the kernel has published and the reader not yet seen, block by block. */
  ghost function Pending(s: State, from: nat): seq<Item>
    requires Shaped(s) && from <= s.ready
    requires forall j :: 0 <= j < s.ready ==> s.blocks[At(s, j)].User?
    decreases s.ready - from
  {
    AtZero(s);
    if from == s.ready then []
    else (if from == 0 then Current(s) else s.blocks[At(s, from)].items) + Pending(s, from + 1)
  }

  function Seen(log: seq<Fate>): (items: seq<Item>)
    ensures |items| == |log|
  {
    seq(|log|, i requires 0 <= i < |log| => log[i].item)
  }

  /** The packets of a log that were given, in order. */
  function Given(log: seq<Fate>): seq<bytes>
    decreases |log|
  {
    if log == [] then []
    else
      var f := log[|log| - 1];
      Given(log[..|log| - 1]) + if f.given && f.item.Packet? then [f.item.wire] else []
  }

  function Refused(log: seq<Fate>): nat
    decreases |log|
  {
    if log == [] then 0
    else Refused(log[..|log| - 1]) + if log[|log| - 1].given then 0 else 1
  }

  /**
   A packet is refused only when it could never be delivered: the kernel's
   cursor left the block, the kernel clipped it, it does not fit a buffer and
   chaining is off, or it needs more slots than the whole batch has.
   */
  predicate Deliverable(m: Mode, item: Item, max: nat)
    requires m.room > 0
  {
    item.Packet? && !item.clipped &&
    (|item.wire| <= m.room || (m.chain && Buffers(|item.wire|, m.room) <= max))
  }

  /** The slots a packet takes: one if a buffer holds it, otherwise its length over theirs, rounded up. */
  function Needs(m: Mode, item: Item): nat
    requires m.room > 0 && item.Packet?
  {
    if |item.wire| <= m.room then 1 else (|item.wire| + m.room - 1) / m.room
  }

  ghost predicate Justified(m: Mode, f: Fate) {
    m.room > 0 && (f.given <==> Deliverable(m, f.item, f.when.max))
  }

  ghost predicate Inv(m: Mode, s: State) {
    && Shaped(s)
    && (forall j :: 0 <= j < |s.blocks| ==> (s.blocks[At(s, j)].User? <==> j < s.ready))
    && (s.rest.Left? ==> s.ready > 0)
    && s.published == Seen(s.log) + Pending(s, 0)
    && s.delivered == Given(s.log) && s.oversize == Refused(s.log)
    && (forall k :: 0 <= k < |s.log| ==> Justified(m, s.log[k]))
  }

  ghost predicate Initial(s: State) {
    && s.blocks != [] && s.reader == 0 && s.ready == 0 && s.rest == Unread
    && (forall j :: 0 <= j < |s.blocks| ==> s.blocks[j] == Kernel)
    && s.published == [] && s.log == [] && s.delivered == [] && s.oversize == 0
  }

  ghost predicate IsRun(m: Mode, states: seq<State>, steps: seq<Step>) {
    && |states| == |steps| + 1 && Initial(states[0])
    && forall k :: 0 <= k < |steps| ==>
         Shaped(states[k]) && Enabled(m, states[k], steps[k]) && states[k + 1] == Next(m, states[k], steps[k])
  }

  // ---------------------------------------------------------------- proofs

  /** Different offsets inside one turn of the ring are different blocks. */
  /** Places depend on where the reader is and how many blocks there are. */
  lemma {:induction false} AtOnly(s: State, t: State, j: nat)
    requires s.blocks != [] && |s.blocks| == |t.blocks| && s.reader == t.reader
    ensures At(s, j) == At(t, j)
  {
  }

  lemma {:induction false} PendingFirst(s: State)
    requires Shaped(s) && s.ready > 0 && forall j :: 0 <= j < s.ready ==> s.blocks[At(s, j)].User?
    ensures s.blocks[s.reader].User? && Pending(s, 0) == Current(s) + Pending(s, 1)
  {
    hide At;
    AtZero(s);
  }

  lemma {:induction false} AtDistinct(s: State, i: nat, j: nat)
    requires Shaped(s) && i < j < |s.blocks|
    ensures At(s, i) != At(s, j)
  {
    ModDistinct(s.reader + i, s.reader + j, |s.blocks|);
  }

  /** Every block is some offset from the reader's. */
  lemma {:induction false} AtNext(s: State, j: nat)
    requires Shaped(s)
    ensures (At(s, 1) + j) % |s.blocks| == At(s, j + 1) && At(s, 0) == s.reader && At(s, |s.blocks|) == s.reader
    ensures At(s.(reader := At(s, 1)), j) == At(s, j + 1)
  {
    var n, r := |s.blocks|, s.reader;
    if r + 1 < n {
      ModUnique(r + 1, n, 0, r + 1);
    } else {
      ModUnique(r + 1, n, 1, 0);
      var q, w := j / n, j % n;
      assert j == n * q + w;
      ModUnique(j + n, n, q + 1, w);
    }
    ModUnique(r, n, 0, r);
    ModUnique(r + n, n, 1, r);
  }

  lemma {:induction false} PendingSame(s: State, t: State, from: nat)
    requires Shaped(s) && Shaped(t) && |s.blocks| == |t.blocks| && s.ready == t.ready && s.reader == t.reader
    requires from <= s.ready
    requires forall j :: 0 <= j < s.ready ==> s.blocks[At(s, j)].User? && t.blocks[At(t, j)] == s.blocks[At(s, j)]
    requires from > 0 || s.rest == t.rest
    ensures Pending(s, from) == Pending(t, from)
    decreases s.ready - from
  {
    if from < s.ready {
      PendingSame(s, t, from + 1);
      AtNext(s, 0);
    }
  }

  lemma {:induction false} CurrentMore(s: State, t: State, items: seq<Item>)
    requires Shaped(s) && Shaped(t) && s.reader == t.reader && s.rest == t.rest && (s.ready == 0 ==> t.rest == Unread)
    requires t.blocks[t.reader].User? && (s.ready > 0 ==> s.blocks[s.reader] == t.blocks[t.reader])
    requires s.ready == 0 ==> t.blocks[t.reader] == User(items)
    ensures Current(t) == if s.ready > 0 then Current(s) else items
  {
  }

  lemma {:induction false} PendingMore(s: State, t: State, from: nat, items: seq<Item>)
    requires Shaped(s) && Shaped(t) && |s.blocks| == |t.blocks| && t.ready == s.ready + 1 && s.reader == t.reader
    requires from <= s.ready && s.rest == t.rest && (s.ready == 0 ==> t.rest == Unread)
    requires forall j :: 0 <= j < s.ready ==> s.blocks[At(s, j)].User? && t.blocks[At(t, j)] == s.blocks[At(s, j)]
    requires t.blocks[At(t, s.ready)] == User(items)
    ensures Pending(t, from) == Pending(s, from) + items
    decreases s.ready - from
  {
    hide At, Current;
    AtZero(s);
    AtZero(t);
    assert forall j :: 0 <= j < t.ready ==> t.blocks[At(t, j)].User?;
    assert Current(t) == if s.ready > 0 then Current(s) else items by { CurrentMore(s, t, items); }
    if from < s.ready {
      PendingMore(s, t, from + 1, items);
      var a := if from == 0 then Current(s) else s.blocks[At(s, from)].items;
      assert Pending(s, from) == a + Pending(s, from + 1) && Pending(t, from) == a + Pending(t, from + 1);
    } else {
      assert Pending(t, from + 1) == [] && Pending(s, from) == [];
      assert Pending(t, from) == items + [];
    }
  }

  lemma {:induction false} PendingShift(s: State, t: State, from: nat)
    requires Shaped(s) && Shaped(t) && |s.blocks| == |t.blocks| && s.ready == t.ready + 1 && t.reader == At(s, 1)
    requires from <= t.ready && t.rest == Unread
    requires forall j :: 0 <= j < s.ready ==> s.blocks[At(s, j)].User?
    requires forall j :: 0 <= j < t.ready ==> t.blocks[At(t, j)] == s.blocks[At(s, j + 1)]
    ensures Pending(t, from) == Pending(s, from + 1)
    decreases t.ready - from
  {
    AtNext(s, from);
    AtNext(t, 0);
    if from < t.ready {
      PendingShift(s, t, from + 1);
    }
  }

  lemma {:induction false} KernelKeeps(m: Mode, s: State, items: seq<Item>)
    requires Inv(m, s) && Enabled(m, s, KernelFill(items))
    ensures Inv(m, Next(m, s, KernelFill(items)))
  {
    var t := Next(m, s, KernelFill(items));
    forall j | 0 <= j < |t.blocks|
      ensures t.blocks[At(t, j)].User? <==> j < t.ready
      ensures j < s.ready ==> t.blocks[At(t, j)] == s.blocks[At(s, j)]
    {
      if j < s.ready {
        AtDistinct(s, j, s.ready);
      } else if j > s.ready {
        AtDistinct(s, s.ready, j);
      }
    }
    PendingMore(s, t, 0, items);
    assert Seen(s.log) + Pending(s, 0) + items == Seen(s.log) + (Pending(s, 0) + items);
  }

  lemma {:induction false} HandBackKeeps(m: Mode, s: State)
    requires Inv(m, s) && Enabled(m, s, HandBack)
    ensures Inv(m, Next(m, s, HandBack))
  {
    hide At, Justified, Pending;
    var t := Next(m, s, HandBack);
    var n := |s.blocks|;
    AtNext(s, 0);
    assert s.ready > 0;
    forall j | 0 <= j < n
      ensures t.blocks[At(t, j)].User? <==> j < t.ready
      ensures j < t.ready ==> t.blocks[At(t, j)] == s.blocks[At(s, j + 1)]
    {
      AtNext(s, j);
      AtOnly(t, s.(reader := At(s, 1)), j);
      if j + 1 < n {
        AtDistinct(s, 0, j + 1);
      }
    }
    PendingShift(s, t, 0);
    PendingFirst(s);
  }

  /** The reader's verdicts are the right ones. */
  lemma {:induction false} JudgeJustified(m: Mode, item: Item, call: Call)
    requires m.room > 0 && call.out < call.max
    ensures match Judge(m, item, call.out, call.max, call.avail)
            case Leave => item.Packet? && call.out + Needs(m, item) > Min(call.max, call.avail)
            case Skip(_) => !Deliverable(m, item, call.max)
            case Give(n) =>
              Deliverable(m, item, call.max) && n == Needs(m, item) && call.out + n <= Min(call.max, call.avail)
  {
  }

  /** Reading one item moves it from the front of what is pending to the end of what is dealt with. */
  lemma {:induction false} ReadMoves(m: Mode, s: State)
    requires Inv(m, s) && Enabled(m, s, ReadItem)
    ensures var t := Next(m, s, ReadItem);
            && (forall j :: 0 <= j < |t.blocks| ==> (t.blocks[At(t, j)].User? <==> j < t.ready))
            && Seen(t.log) + Pending(t, 0) == Seen(s.log) + Pending(s, 0) && t.ready > 0
  {
    AtZero(s);
    var t := Next(m, s, ReadItem);
    assert forall j :: 0 <= j < |t.blocks| ==> At(t, j) == At(s, j);
    var cur := Current(s);
    PendingSame(s, t, 1);
    var later := Pending(s, 1);
    assert Pending(s, 0) == cur + later;
    if t.log != s.log {
      assert Seen(t.log) == Seen(s.log) + [cur[0]];
      assert Pending(t, 0) == cur[1..] + later;
      FrontToBack(Seen(s.log), cur, later);
    } else {
      assert Pending(t, 0) == cur + later;
    }
  }

  lemma {:induction false} FrontToBack(seen: seq<Item>, cur: seq<Item>, later: seq<Item>)
    requires cur != []
    ensures seen + [cur[0]] + (cur[1..] + later) == seen + (cur + later)
  {
    assert cur == [cur[0]] + cur[1..];
  }

  lemma {:induction false} ReadLogged(m: Mode, s: State)
    requires Inv(m, s) && Enabled(m, s, ReadItem)
    ensures var t := Next(m, s, ReadItem);
            && t.delivered == Given(t.log) && t.oversize == Refused(t.log)
            && (forall k :: 0 <= k < |t.log| ==> Justified(m, t.log[k]))
  {
    var t := Next(m, s, ReadItem);
    JudgeJustified(m, Current(s)[0], s.call);
    if t.log != s.log {
      assert t.log[..|t.log| - 1] == s.log;
    }
  }

  lemma {:induction false} BeginKeeps(m: Mode, s: State, max: nat, avail: nat)
    requires Inv(m, s)
    ensures Inv(m, Next(m, s, BeginCall(max, avail)))
  {
    var t := Next(m, s, BeginCall(max, avail));
    assert forall j :: 0 <= j < |t.blocks| ==> At(t, j) == At(s, j);
    PendingSame(s, t, 0);
  }

  lemma {:induction false} StepKeeps(m: Mode, s: State, step: Step)
    requires Inv(m, s) && Enabled(m, s, step)
    ensures Inv(m, Next(m, s, step))
  {
    match step
    case KernelFill(items) => KernelKeeps(m, s, items);
    case BeginCall(max, avail) => BeginKeeps(m, s, max, avail);
    case HandBack => HandBackKeeps(m, s);
    case ReadItem =>
      ReadMoves(m, s);
      ReadLogged(m, s);
  }

  lemma {:induction false} InitialInv(m: Mode, s: State)
    requires Initial(s)
    ensures Inv(m, s)
  {
    assert forall j :: 0 <= j < |s.blocks| ==> 0 <= At(s, j) < |s.blocks|;
    assert Pending(s, 0) == [];
  }

  /**
   Over every run: what the kernel published is what the reader has dealt with,
   in order, followed by what still lies in blocks the reader holds. The packets
   delivered are those dealt with, in order, minus the ones counted oversize,
   and those are exactly the ones no call of that batch size could deliver.
   */
  lemma {:induction false} NothingLostOrRepeated(m: Mode, states: seq<State>, steps: seq<Step>, k: nat)
    requires IsRun(m, states, steps) && k < |states|
    ensures Inv(m, states[k])
  {
    if k == 0 {
      InitialInv(m, states[0]);
    } else {
      NothingLostOrRepeated(m, states, steps, k - 1);
      StepKeeps(m, states[k - 1], steps[k - 1]);
    }
  }

  lemma {:induction false} CountFates(log: seq<Fate>)
    requires forall k :: 0 <= k < |log| && log[k].given ==> log[k].item.Packet?
    ensures |Given(log)| + Refused(log) == |log|
    decreases |log|
  {
    if log != [] {
      CountFates(log[..|log| - 1]);
    }
  }

  /** Delivered and oversize add up to everything published that is no longer waiting. */
  lemma {:induction false} Conserved(m: Mode, states: seq<State>, steps: seq<Step>, k: nat)
    requires IsRun(m, states, steps) && k < |states|
    ensures Inv(m, states[k])
    ensures |states[k].delivered| + states[k].oversize + |Pending(states[k], 0)| == |states[k].published|
  {
    NothingLostOrRepeated(m, states, steps, k);
    CountFates(states[k].log);
  }

  // ------------------------------------------------------ runs as paths

  /** Steps taken one after the other, and where they lead. */
  ghost predicate Path(m: Mode, s: State, steps: seq<Step>, t: State)
    decreases |steps|
  {
    if steps == [] then s == t
    else Shaped(s) && Enabled(m, s, steps[0]) && Path(m, Next(m, s, steps[0]), steps[1..], t)
  }

  lemma {:induction false} PathSnoc(m: Mode, s: State, steps: seq<Step>, t: State, step: Step)
    requires Path(m, s, steps, t) && Shaped(t) && Enabled(m, t, step)
    ensures Path(m, s, steps + [step], Next(m, t, step))
    decreases |steps|
  {
    hide Enabled, Next, Shaped;
    if steps == [] {
      assert steps + [step] == [step] && [step][1..] == [];
    } else {
      PathSnoc(m, Next(m, s, steps[0]), steps[1..], t, step);
      assert (steps + [step])[1..] == steps[1..] + [step];
    }
  }

  lemma {:induction false} PathJoin(m: Mode, s: State, a: seq<Step>, t: State, b: seq<Step>, u: State)
    requires Path(m, s, a, t) && Path(m, t, b, u)
    ensures Path(m, s, a + b, u)
    decreases |a|
  {
    hide Enabled, Next, Shaped;
    if a == [] {
      assert a + b == b;
    } else {
      PathJoin(m, Next(m, s, a[0]), a[1..], t, b, u);
      assert (a + b)[1..] == a[1..] + b;
    }
  }

  lemma {:induction false} PathNone(m: Mode, s: State)
    ensures Path(m, s, [], s)
  {
  }

  lemma {:induction false} PathKeeps(m: Mode, s: State, steps: seq<Step>, t: State)
    requires Inv(m, s) && Path(m, s, steps, t)
    ensures Inv(m, t)
    decreases |steps|
  {
    hide Enabled, Next;
    if steps != [] {
      StepKeeps(m, s, steps[0]);
      PathKeeps(m, Next(m, s, steps[0]), steps[1..], t);
    }
  }

  /** What a receive call may do: begin, read and hand back; nothing of the kernel's. */
  ghost predicate OfReader(steps: seq<Step>) {
    forall k {:trigger steps[k]} :: 0 <= k < |steps| ==> !steps[k].KernelFill?
  }

  lemma {:induction false} OfReaderJoin(a: seq<Step>, b: seq<Step>)
    requires OfReader(a) && OfReader(b)
    ensures OfReader(a + b)
  {
  }

  lemma {:induction false} NextShaped(m: Mode, s: State, step: Step)
    requires Shaped(s) && Enabled(m, s, step)
    ensures Shaped(Next(m, s, step)) && |Next(m, s, step).blocks| == |s.blocks|
  {
  }

  /** What the kernel has published between two states. */
  ghost function Arrived(s: State, t: State): seq<Item> {
    if s.published <= t.published then t.published[|s.published|..] else []
  }

  /** The kernel publishes, and the reader does not: what a path adds, it adds behind. */
  lemma {:induction false} PathPublishes(m: Mode, s: State, steps: seq<Step>, t: State)
    requires Path(m, s, steps, t)
    ensures s.published <= t.published && (OfReader(steps) ==> s.published == t.published)
    decreases |steps|
  {
    if steps != [] {
      PathPublishes(m, Next(m, s, steps[0]), steps[1..], t);
    }
  }

  lemma {:induction false} ArrivedJoin(s: State, t: State, u: State)
    requires s.published <= t.published <= u.published
    ensures s.published <= u.published && Arrived(s, u) == Arrived(s, t) + Arrived(t, u)
    ensures Arrived(s, s) == []
  {
  }

  lemma {:induction false} ArrivedSame(s: State, t: State, u: State)
    requires s.published == t.published
    ensures Arrived(s, u) == Arrived(t, u)
  {
  }

  /** A block filled adds its items behind what is pending, and changes nothing of the call. */
  lemma {:induction false} FillAdds(m: Mode, s: State, items: seq<Item>)
    requires Inv(m, s) && Enabled(m, s, KernelFill(items))
    ensures var t := Next(m, s, KernelFill(items));
            && Inv(m, t) && t.call == s.call && t.delivered == s.delivered && t.oversize == s.oversize
            && s.published <= t.published && Arrived(s, t) == items && Pending(t, 0) == Pending(s, 0) + items
  {
    hide Pending, Seen, Given, Justified, Refused;
    StepKeeps(m, s, KernelFill(items));
    var t := Next(m, s, KernelFill(items));
    Cancel(Seen(s.log), Pending(t, 0), Pending(s, 0) + items);
  }

  lemma {:induction false} Cancel(a: seq<Item>, b: seq<Item>, c: seq<Item>)
    requires a + b == a + c
    ensures b == c
  {
    assert b == (a + b)[|a|..] && c == (a + c)[|a|..];
  }
}
