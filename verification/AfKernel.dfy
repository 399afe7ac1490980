/**
 The kernel an AF_PACKET transmit queue talks to: what it answers to each system
 call, and what handing it messages comes to, answer after answer, batch after batch.
 */
module AfKernel {
  import opened Words

  const TX_BATCH: nat := 256
  const MAX_STALL: nat := 16

  const EINTR: nat := 4
  const EAGAIN: nat := 11
  const ENOBUFS: nat := 105

  /** One answer: an error number, or how many messages it took. */
  datatype Answer = Answer(errno: nat, got: nat) {
    /** How many messages it says were taken. */
    function Taken(): nat { if errno == 0 then got else 0 }

    predicate Full() { errno == EAGAIN || errno == ENOBUFS }

    /** Asking again cannot help. */
    predicate Fatal() { errno != 0 && errno != EINTR && !Full() }
  }

  /** Any kernel, by system call. It never takes more than it was given. */
  type Kernel = nat -> Answer

  function Ask(kernel: Kernel, call: nat, left: nat): (a: Answer)
    ensures a.got <= left
  {
    Answer(kernel(call).errno, Min(kernel(call).got, left))
  }

  /** The last answer from call `from` on was not to take anything. */
  ghost predicate Stopped(kernel: Kernel, from: nat, calls: nat) {
    from < calls && kernel(calls - 1).Taken() == 0
  }

  /** What messages handed over come to: those taken, the calls it took, whether the device was full, and those lost. */
  datatype Heard = Heard(taken: nat, calls: nat, full: nat, lost: nat)

  /** `n` messages from call `call` on, the last `stall` answers having been neither progress nor an end. */
  function Talk(kernel: Kernel, call: nat, n: nat, stall: nat): (h: Heard)
    requires stall < MAX_STALL
    ensures h.taken <= n
    decreases n, MAX_STALL - stall
  {
    if n == 0 then Heard(0, 0, 0, 0)
    else
      var a := Ask(kernel, call, n);
      if a.Taken() > 0 then
        var h := Talk(kernel, call + 1, n - a.got, 0);
        h.(taken := h.taken + a.got, calls := h.calls + 1)
      else if a.Full() then Heard(0, 1, 1, 0)
      else if a.Fatal() || stall + 1 == MAX_STALL then Heard(0, 1, 0, n)
      else
        var h := Talk(kernel, call + 1, n, stall + 1);
        h.(calls := h.calls + 1)
  }

  /** The same, one answer at a time. */
  lemma {:induction false} TalkStep(kernel: Kernel, call: nat, n: nat, stall: nat)
    requires stall < MAX_STALL
    ensures var a, h := Ask(kernel, call, n), Talk(kernel, call, n, stall);
            if n == 0 then h == Heard(0, 0, 0, 0)
            else if a.Taken() > 0 then h == Joined(Heard(a.got, 1, 0, 0), Talk(kernel, call + 1, n - a.got, 0))
            else if a.Full() then h == Heard(0, 1, 1, 0)
            else if a.Fatal() || stall + 1 == MAX_STALL then h == Heard(0, 1, 0, n)
            else h == Joined(Heard(0, 1, 0, 0), Talk(kernel, call + 1, n, stall + 1))
  {
  }

  /** The kernel takes all, or its last answer was to take nothing and the rest were lost or the device was full. */
  lemma {:induction false} TalkEnds(kernel: Kernel, call: nat, n: nat, stall: nat)
    requires stall < MAX_STALL
    ensures var h := Talk(kernel, call, n, stall);
            && (h.taken < n ==> Stopped(kernel, call, call + h.calls))
            && (if h.full > 0 then h.lost == 0 else h.taken + h.lost == n)
    decreases n, MAX_STALL - stall
  {
    hide Talk;
    TalkStep(kernel, call, n, stall);
    if n > 0 {
      var a := Ask(kernel, call, n);
      if a.Taken() > 0 {
        TalkEnds(kernel, call + 1, n - a.got, 0);
      } else if !a.Full() && !a.Fatal() && stall + 1 < MAX_STALL {
        TalkEnds(kernel, call + 1, n, stall + 1);
      }
    }
  }

  /** The answer is neither progress nor an end: nothing taken, or a signal came in between (errno 4). */
  predicate Quiet(a: Answer) { (a.errno == 0 && a.got == 0) || a.errno == 4 }

  ghost predicate AllQuiet(kernel: Kernel, from: int, to: int) {
    forall k: nat {:trigger kernel(k)} :: from <= k < to ==> Quiet(kernel(k))
  }

  /** The device is full: errno 11 or 105. */
  predicate SaysFull(a: Answer) { a.errno == 11 || a.errno == 105 }

  /** Any other error. */
  predicate SaysBroken(a: Answer) { a.errno != 0 && a.errno != 4 && a.errno != 11 && a.errno != 105 }

  /** Why the conversation from `call` on stopped short after `calls` answers, the `stall` before it quiet. */
  ghost predicate Because(kernel: Kernel, call: nat, calls: nat, stall: nat, full: bool) {
    && calls > 0
    && var last := kernel(call + calls - 1);
       if full then SaysFull(last)
       else SaysBroken(last) || (calls + stall >= 16 && AllQuiet(kernel, call + calls - 16, call + calls))
  }

  /** An answer before the last was no reason to stop, nor were those up to it. */
  ghost predicate GoesOn(kernel: Kernel, call: nat, stall: nat, k: nat) {
    && !SaysFull(kernel(k)) && !SaysBroken(kernel(k))
    && (k + 1 + stall >= call + 16 ==> !AllQuiet(kernel, k - 15, k + 1))
  }

  /**
   Which answers end a conversation. Short of all messages it ended on a full device, and then
   nothing is lost, or on another error or on 16 quiet answers in a row, and then the rest is.
   */
  lemma {:induction false} TalkWhy(kernel: Kernel, call: nat, n: nat, stall: nat)
    requires stall < 16 && AllQuiet(kernel, call - stall, call) && stall <= call
    ensures var h := Talk(kernel, call, n, stall);
            && (h.full > 0 <==> h.taken < n && Because(kernel, call, h.calls, stall, true))
            && (h.lost > 0 <==> h.taken < n && Because(kernel, call, h.calls, stall, false))
            && (h.taken < n ==> h.full > 0 || h.lost > 0)
    decreases n, MAX_STALL - stall
  {
    hide Talk;
    TalkStep(kernel, call, n, stall);
    if n > 0 {
      var a := Ask(kernel, call, n);
      if a.Taken() > 0 {
        TalkWhy(kernel, call + 1, n - a.got, 0);
      } else if !a.Full() && !a.Fatal() && stall + 1 < MAX_STALL {
        TalkWhy(kernel, call + 1, n, stall + 1);
      }
    }
  }

  /** And no answer before the last was such a reason. */
  lemma {:induction false} TalkGoesOn(kernel: Kernel, call: nat, n: nat, stall: nat, k: nat)
    requires stall < 16 && call <= k < call + Talk(kernel, call, n, stall).calls - 1
    ensures GoesOn(kernel, call, stall, k)
    decreases n, MAX_STALL - stall
  {
    var a := Ask(kernel, call, n);
    if a.Taken() > 0 {
      assert !Quiet(kernel(call));
      if k > call {
        TalkGoesOn(kernel, call + 1, n - a.got, 0, k);
      }
    } else if k > call {
      TalkGoesOn(kernel, call + 1, n, stall + 1, k);
    }
  }

  /** Quiet answers, fewer than 16 in a row, change nothing but the number of calls. */
  lemma {:induction false} QuietSkipped(kernel: Kernel, call: nat, n: nat, j: nat)
    requires n > 0 && j < 16 && AllQuiet(kernel, call, call + j) && !Quiet(kernel(call + j))
    ensures Talk(kernel, call, n, 0) == Joined(Heard(0, j, 0, 0), Talk(kernel, call + j, n, 0))
  {
    hide Talk;
    QuietRun(kernel, call, n, 0, j);
    LoudAfter(kernel, call + j, n, j);
  }

  lemma {:induction false} QuietRun(kernel: Kernel, call: nat, n: nat, stall: nat, j: nat)
    requires n > 0 && stall + j < 16 && AllQuiet(kernel, call, call + j)
    ensures Talk(kernel, call, n, stall) == Joined(Heard(0, j, 0, 0), Talk(kernel, call + j, n, stall + j))
    decreases j
  {
    if j > 0 {
      TalkStep(kernel, call, n, stall);
      assert Quiet(kernel(call));
      QuietRun(kernel, call + 1, n, stall + 1, j - 1);
    }
  }

  lemma {:induction false} LoudAfter(kernel: Kernel, call: nat, n: nat, stall: nat)
    requires n > 0 && stall < 16 && !Quiet(kernel(call))
    ensures Talk(kernel, call, n, stall) == Talk(kernel, call, n, 0)
  {
  }

  lemma {:induction false} FewCalls(kernel: Kernel, call: nat, n: nat, stall: nat)
    requires stall < MAX_STALL
    ensures Talk(kernel, call, n, stall).calls <= if n == 0 then 0 else 16 * n - stall
    decreases n, MAX_STALL - stall
  {
    hide Talk;
    TalkStep(kernel, call, n, stall);
    if n > 0 {
      var a := Ask(kernel, call, n);
      if a.Taken() > 0 {
        FewCalls(kernel, call + 1, n - a.got, 0);
      } else if !a.Full() && !a.Fatal() && stall + 1 < MAX_STALL {
        FewCalls(kernel, call + 1, n, stall + 1);
      }
    }
  }

  /** What the answers to calls `from..to` say was taken, in all. */
  function Sum(kernel: Kernel, from: nat, to: nat): nat
    decreases to - from
  {
    if from >= to then 0 else kernel(from).Taken() + Sum(kernel, from + 1, to)
  }

  /** The messages taken are those the answers add up to, as many as there were. */
  lemma {:induction false} TalkSums(kernel: Kernel, call: nat, n: nat, stall: nat)
    requires stall < MAX_STALL
    ensures var h := Talk(kernel, call, n, stall); h.taken == Min(n, Sum(kernel, call, call + h.calls))
    decreases n, MAX_STALL - stall
  {
    hide Talk;
    TalkStep(kernel, call, n, stall);
    if n > 0 {
      var a := Ask(kernel, call, n);
      if a.Taken() > 0 {
        TalkSums(kernel, call + 1, n - a.got, 0);
      } else if !a.Full() && !a.Fatal() && stall + 1 < MAX_STALL {
        TalkSums(kernel, call + 1, n, stall + 1);
      }
    }
  }

  // ---------------------------------------------------------- batch after batch

  /** Batches of `ns` messages: each is handed over once the one before it was taken whole. */
  function TalkAll(kernel: Kernel, call: nat, ns: seq<nat>): (h: Heard)
    ensures h.taken <= Total(ns)
    decreases ns
  {
    if ns == [] then Heard(0, 0, 0, 0)
    else
      var h := Talk(kernel, call, ns[0], 0);
      if h.taken < ns[0] then h else Joined(h, TalkAll(kernel, call + h.calls, ns[1..]))
  }

  function Joined(a: Heard, b: Heard): Heard {
    Heard(a.taken + b.taken, a.calls + b.calls, a.full + b.full, a.lost + b.lost)
  }

  lemma {:induction false} JoinedAssoc(a: Heard, b: Heard, c: Heard)
    ensures Joined(Joined(a, b), c) == Joined(a, Joined(b, c)) && Joined(Heard(0, 0, 0, 0), c) == c
    ensures Joined(a, b).taken == a.taken + b.taken && Joined(a, b).calls == a.calls + b.calls
  {
  }

  function Total(ns: seq<nat>): nat {
    if ns == [] then 0 else ns[0] + Total(ns[1..])
  }

  lemma {:induction false} TotalJoin(a: seq<nat>, b: seq<nat>)
    ensures Total(a + b) == Total(a) + Total(b)
  {
    if a == [] {
      assert a + b == b;
    } else {
      assert (a + b)[1..] == a[1..] + b;
      TotalJoin(a[1..], b);
    }
  }

  /** Once batches have been taken whole, the rest go on from there. */
  lemma {:induction false} TalkJoin(kernel: Kernel, call: nat, a: seq<nat>, b: seq<nat>)
    requires TalkAll(kernel, call, a).taken == Total(a)
    ensures var h := TalkAll(kernel, call, a);
            TalkAll(kernel, call, a + b) == Joined(h, TalkAll(kernel, call + h.calls, b))
    decreases a
  {
    hide Talk, Joined;
    if a == [] {
      assert a + b == b;
      JoinedAssoc(Heard(0, 0, 0, 0), TalkAll(kernel, call, b), TalkAll(kernel, call, b));
    } else {
      var h := Talk(kernel, call, a[0], 0);
      var i := TalkAll(kernel, call + h.calls, a[1..]);
      var j := TalkAll(kernel, call + h.calls + i.calls, b);
      assert (a + b)[1..] == a[1..] + b && (a + b)[0] == a[0];
      JoinedAssoc(h, i, j);
      TalkJoin(kernel, call + h.calls, a[1..], b);
    }
  }

  /** A batch that was not taken whole is the last. */
  lemma {:induction false} TalkShort(kernel: Kernel, call: nat, a: seq<nat>, b: seq<nat>)
    requires TalkAll(kernel, call, a).taken < Total(a)
    ensures TalkAll(kernel, call, a + b) == TalkAll(kernel, call, a)
    decreases a
  {
    hide Talk;
    var h := Talk(kernel, call, a[0], 0);
    assert (a + b)[0] == a[0];
    if h.taken == a[0] {
      assert (a + b)[1..] == a[1..] + b;
      TalkShort(kernel, call + h.calls, a[1..], b);
    }
  }

  /** Halfway through: the batches `done` were taken whole and `rest` is to come; `h` is what was heard. */
  ghost predicate Halfway(kernel: Kernel, call: nat, offers: seq<nat>, done: seq<nat>, rest: seq<nat>, h: Heard) {
    offers == done + rest && h == TalkAll(kernel, call, done) && h.taken == Total(done)
  }

  /** There is nothing to come. */
  lemma {:induction false} AllDone(kernel: Kernel, call: nat, offers: seq<nat>, done: seq<nat>, h: Heard)
    requires Halfway(kernel, call, offers, done, [], h)
    ensures h == TalkAll(kernel, call, offers) && h.taken == Total(offers)
  {
    assert done + [] == done;
  }

  /** One more batch: taken whole, it is done; otherwise it was the last. */
  lemma {:induction false} GoOn(kernel: Kernel, call: nat, offers: seq<nat>, done: seq<nat>, m: nat, rest: seq<nat>,
                                h: Heard)
    requires Halfway(kernel, call, offers, done, [m] + rest, h)
    ensures var g := Talk(kernel, call + h.calls, m, 0);
            if g.taken < m then Joined(h, g) == TalkAll(kernel, call, offers) && h.taken + g.taken < Total(offers)
            else Halfway(kernel, call, offers, done + [m], rest, Joined(h, g))
  {
    hide Talk;
    var g := Talk(kernel, call + h.calls, m, 0);
    OneBatch(kernel, call + h.calls, m, g);
    assert offers == (done + [m]) + rest;
    TalkJoin(kernel, call, done, [m]);
    TotalJoin(done, [m]);
    TotalJoin(done + [m], rest);
    assert TalkAll(kernel, call, done + [m]) == Joined(h, g);
    if g.taken < m {
      TalkShort(kernel, call, done + [m], rest);
    }
  }

  lemma {:induction false} OneBatch(kernel: Kernel, call: nat, m: nat, h: Heard)
    requires h == Talk(kernel, call, m, 0)
    ensures TalkAll(kernel, call, [m]) == h && Total([m]) == m
  {
    hide Talk;
    assert [m][1..] == [];
    JoinedAssoc(h, Heard(0, 0, 0, 0), h);
  }

  lemma {:induction false} TalkAllEnds(kernel: Kernel, call: nat, ns: seq<nat>)
    ensures var h := TalkAll(kernel, call, ns);
            && (h.taken < Total(ns) ==> Stopped(kernel, call, call + h.calls))
            && h.calls <= 16 * Total(ns)
    decreases ns
  {
    hide Talk;
    if ns != [] {
      var h := Talk(kernel, call, ns[0], 0);
      TalkEnds(kernel, call, ns[0], 0);
      FewCalls(kernel, call, ns[0], 0);
      TalkAllEnds(kernel, call + h.calls, ns[1..]);
    }
  }

  /** `n` messages in batches as large as they may be. */
  function Batches(n: nat): (ns: seq<nat>)
    ensures Total(ns) == n
  {
    if n == 0 then [] else [Min(n, TX_BATCH)] + Batches(n - Min(n, TX_BATCH))
  }
}
