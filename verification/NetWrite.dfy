/**
 Writing a list of packets to a device that takes any prefix of the frames it is
 handed: whole packets are admitted to the room there is, built in order, and a
 packet the device stopped inside of counts as sent.
 */
module NetWrite {
  import opened Words
  import opened Bytes
  import opened Gso
  import opened NetTx

  // --------------------------------------------------------------- admission

  function Total(ns: seq<nat>): nat {
    if ns == [] then 0 else ns[0] + Total(ns[1..])
  }

  lemma {:induction false} TotalSnoc(ns: seq<nat>, k: nat)
    requires k < |ns|
    ensures Total(ns[..k + 1]) == Total(ns[..k]) + ns[k]
  {
    if k == 0 {
      assert ns[..1] == [ns[0]] && ns[..0] == [];
    } else {
      TotalSnoc(ns[1..], k - 1);
      assert ns[..k + 1][1..] == ns[1..][..k] && ns[..k][1..] == ns[1..][..k - 1];
    }
  }

  lemma {:induction false} TotalGrows(ns: seq<nat>, j: nat, k: nat)
    requires j <= k <= |ns|
    ensures Total(ns[..j]) <= Total(ns[..k])
    decreases k
  {
    if j < k {
      TotalGrows(ns, j, k - 1);
      TotalSnoc(ns, k - 1);
    }
  }

  /** Packets `0..k` fit a budget of frames, and one more would not. */
  ghost predicate Admits(ns: seq<nat>, budget: nat, k: nat) {
    k <= |ns| && Total(ns[..k]) <= budget && (k < |ns| ==> Total(ns[..k + 1]) > budget)
  }

  /** Only one number of leading packets is the most that fit. */
  lemma {:induction false} AdmitsOne(ns: seq<nat>, budget: nat, j: nat, k: nat)
    requires Admits(ns, budget, j) && Admits(ns, budget, k)
    ensures j == k
  {
    if j < k {
      TotalGrows(ns, j + 1, k);
    } else if k < j {
      TotalGrows(ns, k + 1, j);
    }
  }

  method Admit(ns: seq<nat>, budget: nat) returns (packets: nat, frames: nat)
    ensures Admits(ns, budget, packets) && frames == Total(ns[..packets])
  {
    packets, frames := 0, 0;
    while packets < |ns| && frames + ns[packets] <= budget
      invariant packets <= |ns| && frames == Total(ns[..packets]) <= budget
    {
      TotalSnoc(ns, packets);
      frames, packets := frames + ns[packets], packets + 1;
    }
    if packets < |ns| {
      TotalSnoc(ns, packets);
    }
  }

  /** Every packet is at least one frame, so a budget is spent after that many packets. */
  lemma {:induction false} TotalAtLeast(ns: seq<nat>)
    requires forall i :: 0 <= i < |ns| ==> ns[i] > 0
    ensures Total(ns) >= |ns|
  {
    if ns != [] {
      TotalAtLeast(ns[1..]);
    }
  }

  /** Counting no further than the budget loses nothing: the same packets are admitted. */
  lemma {:induction false} CutOff(ns: seq<nat>, some: nat, budget: nat, k: nat)
    requires forall i :: 0 <= i < |ns| ==> ns[i] > 0
    requires some <= |ns| && (some < |ns| ==> some >= budget) && Admits(ns[..some], budget, k)
    ensures Admits(ns, budget, k)
  {
    assert ns[..some][..k] == ns[..k];
    if k < some {
      assert ns[..some][..k + 1] == ns[..k + 1];
    } else if k < |ns| {
      TotalAtLeast(ns[..k + 1]);
    }
  }

  // ------------------------------------------------------- what goes on the wire

  function FrameCounts(ps: seq<Packet>): (ns: seq<nat>)
    ensures |ns| == |ps| && forall i {:trigger ns[i]} :: 0 <= i < |ns| ==> ns[i] == ps[i].Frames() > 0
  {
    seq(|ps|, i requires 0 <= i < |ps| => ps[i].Frames())
  }

  /** Each packet is cut to at least one of its frames. */
  ghost predicate CutsOK(ns: seq<nat>, cuts: seq<nat>) {
    |cuts| == |ns| && forall i {:trigger cuts[i]} :: 0 <= i < |cuts| ==> 0 < cuts[i] <= ns[i]
  }

  /** A prefix of each packet's frames, in packet order. */
  ghost function Cut(link: Link, ps: seq<Packet>, cuts: seq<nat>): seq<bytes>
    requires |cuts| == |ps|
  {
    if ps == [] then [] else Prefix(link.Frames(ps[0]), cuts[0]) + Cut(link, ps[1..], cuts[1..])
  }

  /** The same of the leading packets of a list, as many as there are cuts. */
  ghost function AllCut(link: Link, list: seq<Packet>, cuts: seq<nat>): seq<bytes> {
    if |cuts| <= |list| then Cut(link, list[..|cuts|], cuts) else []
  }

  ghost function Prefix<T>(s: seq<T>, n: nat): seq<T> { s[..Min(n, |s|)] }

  /** How many packets went out in part. */
  ghost function Partial(ns: seq<nat>, cuts: seq<nat>): nat
    requires |cuts| == |ns|
  {
    if ns == [] then 0 else (if cuts[0] < ns[0] then 1 else 0) + Partial(ns[1..], cuts[1..])
  }

  /** Where the first `n` frames of a batch leave each of its packets. */
  ghost function CutsOf(ns: seq<nat>, n: nat): (cuts: seq<nat>)
    ensures |cuts| <= |ns|
  {
    if ns == [] || n == 0 then [] else [Min(ns[0], n)] + CutsOf(ns[1..], n - Min(ns[0], n))
  }

  ghost predicate Positive(ns: seq<nat>) { forall i {:trigger ns[i]} :: 0 <= i < |ns| ==> ns[i] > 0 }

  lemma {:induction false} CutsOfOK(ns: seq<nat>, n: nat)
    requires Positive(ns)
    ensures var cuts := CutsOf(ns, n); CutsOK(ns[..|cuts|], cuts) && Partial(ns[..|cuts|], cuts) <= 1
    ensures var cuts := CutsOf(ns, n); n == Total(ns[..|cuts|]) ==> Partial(ns[..|cuts|], cuts) == 0
  {
    var cuts := CutsOf(ns, n);
    if cuts != [] {
      var m := Min(ns[0], n);
      CutsOfOK(ns[1..], n - m);
      assert ns[..|cuts|][1..] == ns[1..][..|cuts| - 1];
      if n < ns[0] {
        TotalGrows(ns, 1, |cuts|);
        assert ns[..1] == [ns[0]];
      }
    }
  }

  /** The first `n` frames of a batch are a prefix of each packet's. */
  lemma {:induction false} PrefixIsCut(link: Link, ps: seq<Packet>, ns: seq<nat>, n: nat)
    requires Counts(ps, ns) && Positive(ns) && n <= |AllFrames(link, ps)|
    ensures var cuts := CutsOf(ns, n); AllFrames(link, ps)[..n] == Cut(link, ps[..|cuts|], cuts)
  {
    hide Link.Frames, Packet.Frames;
    var cuts := CutsOf(ns, n);
    if cuts != [] {
      var m := Min(ns[0], n);
      assert ns[0] == ps[0].Frames() == |link.Frames(ps[0])|;
      PrefixIsCut(link, ps[1..], ns[1..], n - m);
      assert ps[..|cuts|][1..] == ps[1..][..|cuts| - 1] && cuts[1..] == CutsOf(ns[1..], n - m);
      TakeBoth(link.Frames(ps[0]), AllFrames(link, ps[1..]), n);
    }
  }

  lemma {:induction false} TakeBoth<T>(a: seq<T>, b: seq<T>, n: nat)
    requires n <= |a + b|
    ensures (a + b)[..n] == Prefix(a, Min(|a|, n)) + b[..n - Min(|a|, n)]
  {
  }

  lemma {:induction false} FramesCounted(link: Link, ps: seq<Packet>, ns: seq<nat>)
    requires Counts(ps, ns)
    ensures |AllFrames(link, ps)| == Total(ns)
  {
    hide Link.Frames, Packet.Frames;
    if ps != [] {
      assert ns[0] == ps[0].Frames() == |link.Frames(ps[0])|;
      FramesCounted(link, ps[1..], ns[1..]);
    }
  }

  /** Whole packets, and one more when the device stopped inside it: those are the packets it has frames of. */
  lemma {:induction false} SentIs(ns: seq<nat>, n: nat, k: nat)
    requires Positive(ns) && Admits(ns, n, k) && n <= Total(ns)
    ensures |CutsOf(ns, n)| == if Total(ns[..k]) < n then k + 1 else k
  {
    if ns == [] || n == 0 {
      TotalAtLeast(ns[..k]);
    } else if n < ns[0] {
      assert ns[..1] == [ns[0]] && ns[..0] == [];
      AdmitsOne(ns, n, 0, k);
    } else {
      assert ns[..1] == [ns[0]] && Total(ns[..1]) == ns[0] + Total([]) == ns[0];
      assert k > 0 by {
        assert ns[..0 + 1] == ns[..1];
      }
      Shift(ns, k);
      if k < |ns| {
        Shift(ns, k + 1);
      }
      SentIs(ns[1..], n - ns[0], k - 1);
    }
  }

  lemma {:induction false} Shift(ns: seq<nat>, k: nat)
    requires 0 < k <= |ns|
    ensures Total(ns[..k]) == ns[0] + Total(ns[1..][..k - 1])
  {
    assert ns[..k][1..] == ns[1..][..k - 1];
  }

  // ---------------------------------------------------------------- the port

  /**
   What the device does in one round: its queue has failed; the ring has `slots` free
   and the pool `frames`; the call fails; it finds frames for `given` of those asked
   for, and takes `taken` of those built.
   */
  datatype Round = Round(failed: bool, slots: int, frames: int, broken: bool, given: nat, taken: nat) {
    /** Frames there are both slots and buffers for, and no fewer than that. */
    function Budget(): (b: nat)
      ensures b > 0 ==> b <= slots && b <= frames
      ensures slots > 0 && frames > 0 ==> b == slots || b == frames
    {
      var b := if slots < frames then slots else frames;
      if b < 0 then 0 else b
    }

    /** How many of the frames asked for the device takes: all it found frames for and had the will to take. */
    function Took(asked: nat): (n: nat)
      ensures n <= asked && n <= given && n <= taken && (n == asked || n == given || n == taken)
    {
      Min(Min(asked, given), taken)
    }
  }

  // --------------------------------------------------------------- the rounds

  /**
   One round: the first packet not yet sent, how many packets were admitted from it on and
   the frames they come to, how many of those the device took, and whether the queue failed.
   */
  datatype Entry = Entry(at: nat, packets: nat, handed: nat, took: nat, failed: bool)

  /** What a device that does `r` makes of a round, of packets of `ns` frames each. */
  ghost predicate Follows(ns: seq<nat>, r: Round, e: Entry) {
    && e.at <= |ns| && Admits(ns[e.at..], r.Budget(), e.packets) && e.handed == Total(ns[e.at..][..e.packets])
    && e.failed == (r.failed || (e.packets > 0 && r.broken))
    && e.took == if e.failed then 0 else r.Took(e.handed)
  }

  /** The packets sent by the end of the last round: those it took a frame of, and those before. */
  ghost function Reached(ns: seq<nat>, log: seq<Entry>): nat {
    if log == [] || log[|log| - 1].at > |ns| then 0
    else var e := log[|log| - 1]; e.at + |CutsOf(ns[e.at..], e.took)|
  }

  /** Each round goes on where the one before it stopped, and the device does in it what it does. */
  ghost predicate LogOK(ns: seq<nat>, device: nat -> Round, log: seq<Entry>) {
    log == [] ||
    var front, e := log[..|log| - 1], log[|log| - 1];
    LogOK(ns, device, front) && e.at == Reached(ns, front) && Follows(ns, device(|front|), e)
  }

  /** How many frames of each packet went out, round after round. */
  ghost function CutsBy(ns: seq<nat>, log: seq<Entry>): seq<nat> {
    if log == [] then []
    else
      var e := log[|log| - 1];
      CutsBy(ns, log[..|log| - 1]) + (if e.at <= |ns| then CutsOf(ns[e.at..], e.took) else [])
  }

  /** The device stopped inside packet `i`: it took some of its frames but not all. */
  ghost predicate StopsInside(ns: seq<nat>, e: Entry, i: nat) {
    && e.at <= i < |ns|
    && Total(ns[e.at..][..i - e.at]) < e.took < Total(ns[e.at..][..i - e.at + 1])
  }

  function Patience(direct: bool, patience: nat): nat { if direct then 0 else patience + 1 }

  /** Rounds that neither failed nor took anything. */
  ghost function Idle(log: seq<Entry>): nat {
    if log == [] then 0
    else Idle(log[..|log| - 1]) + (if log[|log| - 1].took == 0 && !log[|log| - 1].failed then 1 else 0)
  }

  /** Rounds in which the device took less than it was handed. */
  ghost function Short(log: seq<Entry>): nat {
    if log == [] then 0
    else Short(log[..|log| - 1]) + (if log[|log| - 1].took < log[|log| - 1].handed then 1 else 0)
  }

  ghost predicate Failed(log: seq<Entry>) { log != [] && log[|log| - 1].failed }

  /** There is no reason for another round. */
  ghost predicate Over(ns: seq<nat>, wait: nat, log: seq<Entry>) {
    Reached(ns, log) == |ns| || Failed(log) || Idle(log) > wait
  }

  /** The rounds of a whole call: none too many and none too few. */
  ghost predicate Complete(ns: seq<nat>, device: nat -> Round, wait: nat, log: seq<Entry>) {
    LogOK(ns, device, log) && Over(ns, wait, log) && OpenUntil(ns, wait, log)
  }

  ghost predicate OpenUntil(ns: seq<nat>, wait: nat, log: seq<Entry>) {
    forall j {:trigger log[..j]} :: 0 <= j < |log| ==> !Over(ns, wait, log[..j])
  }

  lemma {:induction false} PrefixesOver(ns: seq<nat>, wait: nat, log: seq<Entry>, e: Entry)
    requires !Over(ns, wait, log) && OpenUntil(ns, wait, log)
    ensures OpenUntil(ns, wait, log + [e]) && (log + [e])[..|log|] == log
  {
    hide Over;
    forall j | 0 <= j <= |log|
      ensures !Over(ns, wait, (log + [e])[..j])
    {
      assert (log + [e])[..j] == if j < |log| then log[..j] else log;
    }
  }

  /** A log that goes on in step stays in step. */
  lemma {:induction false} LogMore(ns: seq<nat>, device: nat -> Round, log: seq<Entry>, e: Entry)
    requires LogOK(ns, device, log) && e.at == Reached(ns, log) && Follows(ns, device(|log|), e)
    ensures LogOK(ns, device, log + [e])
    ensures CutsBy(ns, log + [e]) == CutsBy(ns, log) + CutsOf(ns[e.at..], e.took)
    ensures Reached(ns, log + [e]) == e.at + |CutsOf(ns[e.at..], e.took)|
  {
    hide CutsOf, Admits;
    var more := log + [e];
    assert more[..|more| - 1] == log && more[|more| - 1] == e;
  }

  /** Every packet sent was cut in one of the rounds, to at least one of its frames. */
  lemma {:induction false} LogCuts(ns: seq<nat>, device: nat -> Round, log: seq<Entry>)
    requires Positive(ns) && LogOK(ns, device, log)
    ensures Reached(ns, log) == |CutsBy(ns, log)| <= |ns| && CutsOK(ns[..|CutsBy(ns, log)|], CutsBy(ns, log))
    decreases |log|
  {
    hide CutsOf, Admits, Follows;
    if log != [] {
      var front, e := log[..|log| - 1], log[|log| - 1];
      LogCuts(ns, device, front);
      assert e.at <= |ns|;
      CutsOfOK(ns[e.at..], e.took);
      CutsJoin(ns, CutsBy(ns, front), CutsOf(ns[e.at..], e.took));
    }
  }

  lemma {:induction false} CutsJoin(ns: seq<nat>, a: seq<nat>, b: seq<nat>)
    requires |a| + |b| <= |ns| && CutsOK(ns[..|a|], a) && CutsOK(ns[|a|..][..|b|], b)
    ensures CutsOK(ns[..|a + b|], a + b)
  {
    forall i | 0 <= i < |a + b|
      ensures 0 < (a + b)[i] <= ns[i]
    {
      if i < |a| {
        assert 0 < a[i] <= ns[..|a|][i];
      } else {
        assert 0 < b[i - |a|] <= ns[|a|..][..|b|][i - |a|];
      }
    }
  }

  lemma {:induction false} SomeCut(ns: seq<nat>, n: nat)
    requires ns != [] && ns[0] > 0
    ensures CutsOf(ns, n) == [] <==> n == 0
  {
  }

  /** Where the first `n` frames leave packet `i`: whole, unless they stop inside it. */
  lemma {:induction false} CutAt(ns: seq<nat>, n: nat, i: nat)
    requires Positive(ns) && i < |CutsOf(ns, n)|
    ensures Total(ns[..i]) < n
    ensures CutsOf(ns, n)[i] == if n < Total(ns[..i + 1]) then n - Total(ns[..i]) else ns[i]
  {
    assert ns[..1] == [ns[0]] && ns[..0] == [];
    if i > 0 {
      var m := Min(ns[0], n);
      CutAt(ns[1..], n - m, i - 1);
      Shift(ns, i);
      Shift(ns, i + 1);
      assert CutsOf(ns, n)[i] == CutsOf(ns[1..], n - m)[i - 1];
    } else {
      assert Total(ns[..1]) == ns[0] + Total([]) == ns[0];
    }
  }

  /** Packets the first `n` frames have no frame of. */
  lemma {:induction false} CutBeyond(ns: seq<nat>, n: nat, i: nat)
    requires Positive(ns) && |CutsOf(ns, n)| <= i < |ns|
    ensures n <= Total(ns[..i])
  {
    if n > 0 && i > 0 {
      var m := Min(ns[0], n);
      CutBeyond(ns[1..], n - m, i - 1);
      Shift(ns, i);
    }
  }

  /** Whether some round stopped inside packet `i`. */
  ghost predicate SomeStops(ns: seq<nat>, log: seq<Entry>, i: nat) {
    exists j :: 0 <= j < |log| && StopsInside(ns, log[j], i)
  }

  /** A packet is cut exactly when the device stopped inside it. */
  lemma {:induction false} CutWhere(ns: seq<nat>, device: nat -> Round, log: seq<Entry>, i: nat)
    requires Positive(ns) && LogOK(ns, device, log) && i < |CutsBy(ns, log)| && i < |ns|
    ensures if SomeStops(ns, log, i) then CutsBy(ns, log)[i] < ns[i] else CutsBy(ns, log)[i] == ns[i]
    decreases |log|
  {
    hide CutsOf, Admits, Follows, StopsInside, SomeStops, Reached;
    var front, e := log[..|log| - 1], log[|log| - 1];
    LogCuts(ns, device, front);
    StopsMore(ns, front, e, i);
    assert log == front + [e];
    if i < |CutsBy(ns, front)| {
      CutWhere(ns, device, front, i);
      NotAfter(ns, e, i);
    } else {
      NotBefore(ns, device, front, i);
      assert e.at <= |ns| by {
        LogCuts(ns, device, front);
      }
      StopsHere(ns, e, i);
    }
  }

  lemma {:induction false} StopsMore(ns: seq<nat>, log: seq<Entry>, e: Entry, i: nat)
    ensures SomeStops(ns, log + [e], i) <==> SomeStops(ns, log, i) || StopsInside(ns, e, i)
  {
    hide StopsInside;
    if StopsInside(ns, e, i) {
      assert (log + [e])[|log|] == e;
    }
    if SomeStops(ns, log, i) {
      var j :| 0 <= j < |log| && StopsInside(ns, log[j], i);
      assert (log + [e])[j] == log[j];
    }
  }

  /** A packet sent before the round is not one it stops inside of. */
  lemma {:induction false} NotAfter(ns: seq<nat>, e: Entry, i: nat)
    requires i < e.at
    ensures !StopsInside(ns, e, i)
  {
  }

  /** A packet of the round is whole unless the round stops inside it. */
  lemma {:induction false} StopsHere(ns: seq<nat>, e: Entry, i: nat)
    requires Positive(ns) && e.at <= i < |ns| && i - e.at < |CutsOf(ns[e.at..], e.took)|
    ensures var c := CutsOf(ns[e.at..], e.took)[i - e.at];
            if StopsInside(ns, e, i) then c < ns[i] else c == ns[i]
  {
    hide CutsOf;
    var rest := ns[e.at..];
    CutAt(rest, e.took, i - e.at);
    TotalSnoc(rest, i - e.at);
  }

  /** No round stopped inside a packet that is not sent yet. */
  lemma {:induction false} NotBefore(ns: seq<nat>, device: nat -> Round, log: seq<Entry>, i: nat)
    requires Positive(ns) && LogOK(ns, device, log) && |CutsBy(ns, log)| <= i < |ns|
    ensures !SomeStops(ns, log, i)
    decreases |log|
  {
    hide CutsOf, Admits, Follows, StopsInside, Reached;
    if log != [] {
      var front, e := log[..|log| - 1], log[|log| - 1];
      LogCuts(ns, device, front);
      NotBefore(ns, device, front, i);
      NoStopPast(ns, e, i);
      StopsMore(ns, front, e, i);
      assert log == front + [e];
    }
  }

  lemma {:induction false} NoStopPast(ns: seq<nat>, e: Entry, i: nat)
    requires Positive(ns) && e.at <= i < |ns| && |CutsOf(ns[e.at..], e.took)| <= i - e.at
    ensures !StopsInside(ns, e, i)
  {
    hide CutsOf;
    CutBeyond(ns[e.at..], e.took, i - e.at);
  }

  /** The packets cut are those a round stopped inside of; the others are whole. */
  ghost predicate CutWhereStopped(ns: seq<nat>, log: seq<Entry>, cuts: seq<nat>) {
    forall i {:trigger cuts[i]} :: 0 <= i < |cuts| && i < |ns| ==>
      if SomeStops(ns, log, i) then cuts[i] < ns[i] else cuts[i] == ns[i]
  }

  lemma {:induction false} CutsWhere(ns: seq<nat>, device: nat -> Round, log: seq<Entry>)
    requires Positive(ns) && LogOK(ns, device, log)
    ensures CutWhereStopped(ns, log, CutsBy(ns, log))
  {
    hide SomeStops, CutsBy, LogOK;
    forall i | 0 <= i < |CutsBy(ns, log)| && i < |ns|
      ensures if SomeStops(ns, log, i) then CutsBy(ns, log)[i] < ns[i] else CutsBy(ns, log)[i] == ns[i]
    {
      CutWhere(ns, device, log, i);
    }
  }

  /** A round that stops inside a packet was handed that packet and took less than it was handed. */
  lemma {:induction false} StopIsShort(ns: seq<nat>, r: Round, e: Entry, i: nat)
    requires Positive(ns) && Follows(ns, r, e) && StopsInside(ns, e, i)
    ensures e.took < e.handed && i - e.at < e.packets && !e.failed
  {
    var rest := ns[e.at..];
    if e.packets <= i - e.at {
      TotalGrows(rest, e.packets, i - e.at);
    } else {
      TotalGrows(rest, i - e.at + 1, e.packets);
    }
  }

  /** No more packets go out in part than there are rounds in which the device fell short. */
  lemma {:induction false} FewCuts(ns: seq<nat>, device: nat -> Round, log: seq<Entry>)
    requires Positive(ns) && LogOK(ns, device, log)
    ensures |CutsBy(ns, log)| <= |ns| && Partial(ns[..|CutsBy(ns, log)|], CutsBy(ns, log)) <= Short(log)
    decreases |log|
  {
    hide CutsOf, Partial, Follows, Reached, Admits;
    LogCuts(ns, device, log);
    if log != [] {
      var front, e := log[..|log| - 1], log[|log| - 1];
      LogCuts(ns, device, front);
      FewCuts(ns, device, front);
      RoundCuts(ns, device(|front|), e, CutsBy(ns, front));
    } else {
      Untouched(ns);
    }
  }

  lemma {:induction false} RoundCuts(ns: seq<nat>, r: Round, e: Entry, cuts: seq<nat>)
    requires Positive(ns) && Follows(ns, r, e) && |cuts| == e.at
    ensures var all := cuts + CutsOf(ns[e.at..], e.took);
            && |all| <= |ns|
            && Partial(ns[..|all|], all) <= Partial(ns[..|cuts|], cuts) + (if e.took < e.handed then 1 else 0)
  {
    hide CutsOf, Partial;
    var rest := ns[e.at..];
    var more := CutsOf(rest, e.took);
    CutsOfOK(rest, e.took);
    assert ns[..e.at + |more|] == ns[..e.at] + rest[..|more|];
    PartialAppends(ns[..e.at], cuts, rest[..|more|], more);
    if e.took >= e.handed {
      if e.failed {
        Untouched(rest);
      } else {
        AllWhole(rest, e.packets);
      }
    }
  }

  /** What the device does decides every round: a call has one log. */
  lemma {:induction false} OneLog(ns: seq<nat>, device: nat -> Round, wait: nat, a: seq<Entry>, b: seq<Entry>)
    requires Complete(ns, device, wait, a) && Complete(ns, device, wait, b)
    ensures a == b
  {
    hide Over, Reached;
    var k := if |a| <= |b| then |a| else |b|;
    SameLog(ns, device, a, b, k);
    assert a[..|a|] == a && b[..|b|] == b;
  }

  lemma {:induction false} SameLog(ns: seq<nat>, device: nat -> Round, a: seq<Entry>, b: seq<Entry>, k: nat)
    requires LogOK(ns, device, a) && LogOK(ns, device, b) && k <= |a| && k <= |b|
    ensures a[..k] == b[..k]
  {
    hide Reached, Admits, LogOK;
    if k > 0 {
      SameLog(ns, device, a, b, k - 1);
      LogAt(ns, device, a, k);
      LogAt(ns, device, b, k);
      AdmitsOne(ns[a[k - 1].at..], device(k - 1).Budget(), a[k - 1].packets, b[k - 1].packets);
      assert a[..k] == a[..k - 1] + [a[k - 1]] && b[..k] == b[..k - 1] + [b[k - 1]];
    }
  }

  /** Round `k - 1` of a log. */
  lemma {:induction false} LogAt(ns: seq<nat>, device: nat -> Round, log: seq<Entry>, k: nat)
    requires LogOK(ns, device, log) && 0 < k <= |log|
    ensures log[k - 1].at == Reached(ns, log[..k - 1]) && Follows(ns, device(k - 1), log[k - 1])
    decreases |log|
  {
    hide Reached, Follows;
    if k < |log| {
      var front := log[..|log| - 1];
      LogAt(ns, device, front, k);
      assert front[..k - 1] == log[..k - 1];
    }
  }

  lemma {:induction false} Moved<T>(all: seq<T>, done: seq<T>, left: seq<T>, f: T, left1: seq<T>)
    requires all == done + left && left == [f] + left1
    ensures all == (done + [f]) + left1
  {
  }

  /** A transmit queue of the endpoint, and the wire behind it. */
  class Port {
    const link: Link
    const builder: Copier

    var segs: seq<nat>
    var wire: seq<bytes>
    var dropped: nat
    var closed: bool

    ghost predicate Valid()
      reads this, builder, builder.s
    {
      builder.Valid() && builder.link == link && link.room >= MIN_FRAME
    }

    constructor (link: Link)
      requires link.room >= MIN_FRAME
      ensures Valid() && wire == [] && dropped == 0 && !closed && this.link == link
    {
      this.link := link;
      builder := new Copier(link);
      segs, wire, dropped, closed := [], [], 0, false;
    }

    /** The device asks the builder for frames, one by one, and takes a prefix of what it got. */
    method SendFunc(frames: nat, r: Round) returns (n: nat, err: bool)
      requires Valid() && AllTaken(link, builder.pkts) && builder.frame == 0 && |builder.Left()| == frames
      modifies this`wire, builder`p, builder`frame, builder`gso, builder.s
      ensures Valid() && err == r.broken && n == (if err then 0 else r.Took(frames))
      ensures wire == old(wire) + old(builder.Left())[..n]
    {
      hide Link.Takes, Link.Builds, Link.Frames, Packet.Frames, SegFrames, AllFrames;
      n, err := 0, r.broken;
      ghost var all := builder.Left();
      if !err {
        var built := BuildFrames(Min(frames, r.given));
        n := Min(|built|, r.taken);
        wire := wire + built[..n];
      }
    }

    method BuildFrames(m: nat) returns (built: seq<bytes>)
      requires Valid() && AllTaken(link, builder.pkts) && builder.frame == 0 && m <= |builder.Left()|
      modifies builder`p, builder`frame, builder`gso, builder.s
      ensures Valid() && built == old(builder.Left())[..m]
    {
      hide Link.Takes, Link.Builds, Link.Frames, Packet.Frames, SegFrames, AllFrames, Copier.Left;
      built := [];
      ghost var all := builder.Left();
      while |built| < m
        invariant Valid() && |built| <= m && builder.frame == |built| && all == built + builder.Left()
      {
        ghost var left := builder.Left();
        var f := BuildOne(|built|);
        Moved(all, built, left, f, builder.Left());
        built := built + [f];
      }
    }

    /** One frame of the device's memory, filled. */
    method BuildOne(i: nat) returns (f: bytes)
      requires Valid() && AllTaken(link, builder.pkts) && i == builder.frame && builder.Left() != []
      modifies builder`p, builder`frame, builder`gso, builder.s
      ensures Valid() && builder.frame == i + 1 && old(builder.Left()) == [f] + builder.Left()
    {
      hide Link.Takes, Link.Builds, Link.Frames, Packet.Frames, SegFrames, AllFrames, Copier.Left;
      builder.SomeoneIsNext();
      var buf := new u8[link.room](_ => 0);
      var len := builder.Build(i, buf);
      f := buf[..len];
      assert buf[..][..len] == f;
    }

    /** Counts the frames of the leading packets, no further than the budget. */
    method CountFrames(pkts: seq<Packet>, budget: nat) returns (ns: seq<nat>)
      requires budget > 0
      ensures |ns| <= |pkts| && ns == FrameCounts(pkts)[..|ns|] && (|ns| < |pkts| ==> |ns| >= budget)
    {
      hide Packet.Frames;
      ns := [];
      while |ns| < |pkts|
        invariant |ns| <= |pkts| && ns == FrameCounts(pkts)[..|ns|]
      {
        ns := ns + [pkts[|ns|].Frames()];
        if |ns| >= budget {
          break;
        }
      }
    }

    /**
     Hands over the frames of the most leading packets that fit the budget; the device takes the
     first `n` of them.
     */
    method Transmit(pkts: seq<Packet>, r: Round) returns (sent: nat, err: bool, ghost k: nat, ghost n: nat)
      requires Valid() && AllTaken(link, pkts)
      modifies this`wire, this`segs, builder, builder.s
      ensures Valid() && Admits(FrameCounts(pkts), r.Budget(), k)
      ensures err == (r.failed || (k > 0 && r.broken))
      ensures n == (if err then 0 else r.Took(Total(FrameCounts(pkts)[..k])))
      ensures n <= |AllFrames(link, pkts)| && wire == old(wire) + AllFrames(link, pkts)[..n]
      ensures sent == |CutsOf(FrameCounts(pkts), n)|
    {
      hide Link.Takes, Link.Builds, Link.Frames, Packet.Frames, SegFrames, AllFrames, Copier.Left, Copier.Valid;
      ghost var ns := FrameCounts(pkts);
      sent, err, n := 0, r.failed, 0;
      k := MostOf(ns, r.Budget());
      if !err && r.Budget() > 0 {
        segs := CountFrames(pkts, r.Budget());
        var admitted, frames := Admit(segs, r.Budget());
        CutOff(ns, |segs|, r.Budget(), admitted);
        AdmitsOne(ns, r.Budget(), admitted, k);
        if admitted > 0 {
          sent, err, n := Send(pkts, admitted, frames, r);
        }
      } else {
        TotalAtLeast(ns[..k]);
      }
    }

    method Send(pkts: seq<Packet>, k: nat, frames: nat, r: Round) returns (sent: nat, err: bool, ghost n: nat)
      requires Valid() && AllTaken(link, pkts) && 0 < k <= |segs| <= |pkts| && segs == FrameCounts(pkts)[..|segs|]
      requires frames == Total(segs[..k])
      modifies this`wire, builder, builder.s
      ensures Valid() && err == r.broken && n == (if err then 0 else r.Took(Total(FrameCounts(pkts)[..k])))
      ensures n <= |AllFrames(link, pkts)| && wire == old(wire) + AllFrames(link, pkts)[..n]
      ensures sent == |CutsOf(FrameCounts(pkts), n)|
    {
      hide Link.Takes, Link.Builds, Link.Frames, Packet.Frames, SegFrames, AllFrames, Copier.Left;
      ghost var ns := FrameCounts(pkts);
      assert segs[..k] == ns[..k];
      TakenBuilt(link, pkts[..k]);
      builder.Begin(pkts[..k], segs[..k]);
      FramesCounted(link, pkts[..k], segs[..k]);
      FramesSplit(link, pkts, k);
      var took, broken := SendFunc(frames, r);
      n, err := took, broken;
      sent := 0;
      if !err {
        sent := Whole(segs[..k], took);
        SentOf(ns, k, took);
      }
    }

    /** One round, on top of what the rounds before it, in `log`, put on the wire after `was`. */
    method WriteRound(list: seq<Packet>, sent: nat, r: Round, ghost device: nat -> Round, ghost log: seq<Entry>,
                      ghost was: seq<bytes>) returns (n: nat, err: bool, ghost e: Entry)
      requires r == device(|log|) && Valid() && AllTaken(link, list) && LogOK(FrameCounts(list), device, log)
      requires sent == Reached(FrameCounts(list), log) < |list|
      requires wire == was + AllCut(link, list, CutsBy(FrameCounts(list), log))
      modifies this`wire, this`segs, builder, builder.s
      ensures Valid() && LogOK(FrameCounts(list), device, log + [e])
              && sent + n == Reached(FrameCounts(list), log + [e])
      ensures err == e.failed && (n == 0 <==> e.took == 0) && sent + n <= |list|
      ensures wire == was + AllCut(link, list, CutsBy(FrameCounts(list), log + [e]))
    {
      hide Link.Takes, Link.Builds, Link.Frames, Packet.Frames, AllFrames, Cut, CutsOf, CutsBy, Reached;
      hide Copier.Valid, LogOK;
      ghost var ns, rest := FrameCounts(list), FrameCounts(list[sent..]);
      ghost var k, took;
      assert rest == ns[sent..];
      n, err, k, took := Transmit(list[sent..], r);
      e := Entry(sent, k, Total(rest[..k]), took, err);
      LogCuts(ns, device, log);
      Accumulate(link, list, sent, CutsBy(ns, log), took);
      LogMore(ns, device, log, e);
      SomeCut(rest, took);
    }

    /**
     Writes a list of packets, a round at a time, until all are sent, the queue fails or
     no room is found for the next for too long: on a `direct` port the first round that
     takes nothing ends it, otherwise `patience` later ones may pass before the deadline has.
     `log` is what each round asked of the device and what the device did.
     */
    method WritePackets(list: seq<Packet>, device: nat -> Round, direct: bool, patience: nat)
      returns (sent: nat, err: bool, ghost cuts: seq<nat>, ghost log: seq<Entry>)
      requires Valid() && AllTaken(link, list)
      modifies this`wire, this`segs, this`dropped, builder, builder.s
      ensures Valid() && sent <= |list| && CutsOK(FrameCounts(list[..sent]), cuts)
      ensures wire == old(wire) + Cut(link, list[..sent], cuts)
      ensures closed && list != [] ==> log == [] && err && sent == 0 && dropped == old(dropped)
      ensures !closed || list == [] ==>
                && Complete(FrameCounts(list), device, Patience(direct, patience), log)
                && err == Failed(log) && dropped == old(dropped) + |list| - sent
      ensures sent == Reached(FrameCounts(list), log) && cuts == CutsBy(FrameCounts(list), log)
      ensures CutWhereStopped(FrameCounts(list), log, cuts)
      ensures Partial(FrameCounts(list[..sent]), cuts) <= Short(log) && |log| <= |list| + patience + 2
    {
      hide Link.Takes, Link.Builds, Link.Frames, Packet.Frames, AllFrames, Cut, Partial, CutsOf, CutsBy;
      hide Copier.Valid, StopsInside, LogOK, Reached, OpenUntil, CutWhereStopped, CutsOK, Short;
      ghost var ns := FrameCounts(list);
      sent, err, log := 0, closed && list != [], [];
      NothingYet(link, list, device);
      var idle, wait, round := 0, Patience(direct, patience), 0;
      ghost var was := wire;
      if !err {
        while sent < |list| && !err && idle <= wait
          invariant Valid() && LogOK(ns, device, log) && dropped == old(dropped)
          invariant sent == Reached(ns, log) <= |list| && wire == was + AllCut(link, list, CutsBy(ns, log))
          invariant err == Failed(log) && idle == Idle(log) <= wait + (if err then 0 else 1)
          invariant round == |log| <= sent + idle + (if err then 1 else 0)
          invariant OpenUntil(ns, wait, log)
          decreases |list| - sent, wait + 1 - idle, !err
        {
          var n;
          ghost var e;
          n, err, e := WriteRound(list, sent, device(round), device, log, was);
          PrefixesOver(ns, wait, log, e);
          log, sent, round := log + [e], sent + n, round + 1;
          if !err && n == 0 {
            idle := idle + 1;
          }
        }
        dropped := dropped + (|list| - sent);
      }
      cuts := CutsBy(ns, log);
      LogCuts(ns, device, log);
      CutsWhere(ns, device, log);
      FewCuts(ns, device, log);
      assert ns[..sent] == FrameCounts(list[..sent]);
    }
  }

  /** Whole packets among the first `n` frames of a batch, and the one the device stopped inside. */
  method Whole(ns: seq<nat>, n: nat) returns (sent: nat)
    requires Positive(ns) && n <= Total(ns)
    ensures sent == |CutsOf(ns, n)|
  {
    var packets, frames := Admit(ns, n);
    SentIs(ns, n, packets);
    sent := if frames < n then packets + 1 else packets;
  }

  /** The most leading packets that fit. */
  ghost function MostOf(ns: seq<nat>, budget: nat): (k: nat)
    ensures Admits(ns, budget, k)
  {
    MostExists(ns, budget);
    var k :| Admits(ns, budget, k);
    k
  }

  lemma {:induction false} MostExists(ns: seq<nat>, budget: nat)
    ensures exists k :: Admits(ns, budget, k)
  {
    var k := 0;
    assert ns[..0] == [];
    while k < |ns| && Total(ns[..k + 1]) <= budget
      invariant k <= |ns| && Total(ns[..k]) <= budget
    {
      k := k + 1;
    }
    assert Admits(ns, budget, k);
  }

  lemma {:induction false} FramesSplit(link: Link, ps: seq<Packet>, k: nat)
    requires k <= |ps|
    ensures AllFrames(link, ps) == AllFrames(link, ps[..k]) + AllFrames(link, ps[k..])
  {
    hide Link.Frames, Packet.Frames;
    if k == 0 {
      assert ps[..0] == [] && ps[0..] == ps;
    } else {
      FramesSplit(link, ps[1..], k - 1);
      assert ps[..k][1..] == ps[1..][..k - 1] && ps[1..][k - 1..] == ps[k..];
    }
  }

  /** Frames of the leading packets are cut the same with or without what follows. */
  lemma {:induction false} SentOf(ns: seq<nat>, k: nat, n: nat)
    requires k <= |ns| && n <= Total(ns[..k])
    ensures CutsOf(ns[..k], n) == CutsOf(ns, n)
  {
    if k > 0 && n > 0 {
      assert ns[..k][1..] == ns[1..][..k - 1];
      SentOf(ns[1..], k - 1, n - Min(ns[0], n));
    }
  }

  lemma {:induction false} NothingYet(link: Link, list: seq<Packet>, device: nat -> Round)
    ensures var ns := FrameCounts(list);
            LogOK(ns, device, []) && CutsBy(ns, []) == [] && AllCut(link, list, []) == [] && Reached(ns, []) == 0
    ensures forall wait {:trigger OpenUntil(FrameCounts(list), wait, [])} :: OpenUntil(FrameCounts(list), wait, [])
  {
    assert list[..0] == [];
  }

  lemma {:induction false} Accumulate(link: Link, list: seq<Packet>, sent: nat, cuts: seq<nat>, n: nat)
    requires sent <= |list| && CutsOK(FrameCounts(list[..sent]), cuts) && n <= |AllFrames(link, list[sent..])|
    ensures var rest := list[sent..];
            var ns := FrameCounts(rest);
            var more := CutsOf(ns, n);
            && sent + |more| <= |list| && CutsOK(FrameCounts(list[..sent + |more|]), cuts + more)
            && Cut(link, list[..sent + |more|], cuts + more) == Cut(link, list[..sent], cuts) + AllFrames(link,
               rest)[..n]
  {
    hide Packet.Frames, Link.Frames, AllFrames, CutsOf, Cut, Partial;
    var rest := list[sent..];
    var ns := FrameCounts(rest);
    var more := CutsOf(ns, n);
    CutsOfOK(ns, n);
    PrefixIsCut(link, rest, ns, n);
    var a, b := list[..sent], rest[..|more|];
    assert a + b == list[..sent + |more|];
    assert FrameCounts(b) == ns[..|more|] && FrameCounts(a + b) == FrameCounts(a) + FrameCounts(b);
    CutAppends(link, a, cuts, b, more);
  }

  lemma {:induction false} CutAppends(link: Link, a: seq<Packet>, cs: seq<nat>, b: seq<Packet>, ds: seq<nat>)
    requires |cs| == |a| && |ds| == |b|
    ensures Cut(link, a + b, cs + ds) == Cut(link, a, cs) + Cut(link, b, ds)
  {
    hide Link.Frames;
    if a == [] {
      assert a + b == b && cs + ds == ds;
    } else {
      CutAppends(link, a[1..], cs[1..], b, ds);
      assert (a + b)[1..] == a[1..] + b && (cs + ds)[1..] == cs[1..] + ds;
    }
  }

  lemma {:induction false} PartialAppends(a: seq<nat>, cs: seq<nat>, b: seq<nat>, ds: seq<nat>)
    requires |cs| == |a| && |ds| == |b|
    ensures Partial(a + b, cs + ds) == Partial(a, cs) + Partial(b, ds)
  {
    if a == [] {
      assert a + b == b && cs + ds == ds;
    } else {
      PartialAppends(a[1..], cs[1..], b, ds);
      assert (a + b)[1..] == a[1..] + b && (cs + ds)[1..] == cs[1..] + ds;
    }
  }

  lemma {:induction false} Untouched(ns: seq<nat>)
    ensures CutsOf(ns, 0) == [] && Partial(ns[..0], []) == 0
  {
  }

  /** A device that takes all it is handed cuts no packet. */
  lemma {:induction false} AllWhole(ns: seq<nat>, k: nat)
    requires Positive(ns) && k <= |ns|
    ensures var cuts := CutsOf(ns, Total(ns[..k])); |cuts| == k && Partial(ns[..k], cuts) == 0
  {
    var n := Total(ns[..k]);
    TotalGrows(ns, k, |ns|);
    assert ns[..|ns|] == ns;
    if k < |ns| {
      TotalSnoc(ns, k);
    }
    SentIs(ns, n, k);
    CutsOfOK(ns, n);
  }
}
