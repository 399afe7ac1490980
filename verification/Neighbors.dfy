/**
 The table of neighbours: address to MAC, with pinned entries that are kept and
 learned ones that may be replaced or evicted, but not too often. Readers take a
 snapshot of the table; a writer makes a changed copy under a lock and publishes it.
 */
module Neighbors {
  import opened Bytes

  const MAX_NEIGHBORS := 4096
  const WRITE_INTERVAL := 10_000_000 // nanoseconds

  type Ip = bytes

  datatype Neighbor = Neighbor(mac: bytes, pinned: bool)

  type Table = map<Ip, Neighbor>

  datatype Victim = Nobody | Evicted(ip: Ip)

  datatype Written = Written(table: Table, last: int, changed: bool, victim: Victim)

  /** An order in which a map may hand out its keys. */
  ghost predicate Order(order: seq<Ip>, table: Table) {
    && (forall i {:trigger order[i]} :: 0 <= i < |order| ==> order[i] in table)
    && (forall k {:trigger k in table} :: k in table ==> k in order)
    && (forall i, j {:trigger order[i], order[j]} :: 0 <= i < j < |order| ==> order[i] != order[j])
  }

  lemma {:induction false} OrderAt(order: seq<Ip>, table: Table, i: nat)
    requires Order(order, table) && i < |order|
    ensures order[i] in table && order[i] !in order[..i]
  {
  }

  lemma {:induction false} OrderCovers(order: seq<Ip>, table: Table)
    requires Order(order, table)
    ensures forall k {:trigger k in table} :: k in table <==> k in order
    ensures forall i {:trigger order[i]} :: 0 <= i < |order| ==> order[i] in table
  {
  }

  /** The first entry that is not pinned. */
  ghost function FirstUnpinned(order: seq<Ip>, table: Table): Victim
    requires forall i {:trigger order[i]} :: 0 <= i < |order| ==> order[i] in table
  {
    if order == [] then Nobody
    else if !table[order[0]].pinned then Evicted(order[0])
    else FirstUnpinned(order[1..], table)
  }

  /** Whether a write changes nothing, is refused, or may go on. */
  predicate Refused(table: Table, last: int, ip: Ip, nb: Neighbor, now: int) {
    || (ip in table && table[ip] == nb)
    || (ip in table && table[ip].pinned && !nb.pinned)
    || (!nb.pinned && (ip in table || |table| >= MAX_NEIGHBORS) && now - last < WRITE_INTERVAL)
  }

  /** What a write does. */
  ghost function Write(table: Table, last: int, ip: Ip, nb: Neighbor, now: int, order: seq<Ip>): Written
    requires Order(order, table)
  {
    var v := FirstUnpinned(order, table);
    if Refused(table, last, ip, nb, now) then Written(table, last, false, Nobody)
    else if ip in table || |table| < MAX_NEIGHBORS then Written(table[ip := nb], now, true, Nobody)
    else if v == Nobody then Written(table, last, false, Nobody)
    else Written((table - {v.ip})[ip := nb], now, true, v)
  }

  /** What a learner decides from its snapshot, before it asks for the lock. */
  predicate Worthwhile(seen: Table, last: int, ip: Ip, mac: bytes, now: int) {
    && !(ip in seen && (seen[ip].mac == mac || seen[ip].pinned))
    && !((ip in seen || |seen| >= MAX_NEIGHBORS) && now - last < WRITE_INTERVAL)
  }

  /** What the test outside the lock turns away, the one inside would have too. */
  lemma {:induction false} TestsAgree(table: Table, last: int, ip: Ip, mac: bytes, now: int)
    ensures !Worthwhile(table, last, ip, mac, now) <==> Refused(table, last, ip, Neighbor(mac, false), now)
  {
  }

  /** Some learned entry could make room. */
  ghost predicate CanEvict(table: Table) { exists k :: k in table && !table[k].pinned }

  /**
   What comes of learning, case by case, the clock read at `tested` and again at `now`: an
   address never seen is learned at once while there is room; a changed one, or a new one in
   a full table with an entry to evict, unless the last write is less than 10 ms past when
   the clock is first read; a pinned one and a known one never.
   */
  ghost predicate Learned(table: Table, last: int, ip: Ip, mac: bytes, tested: int, now: int, changed: bool,
                          after: Table) {
    && (if ip in table then changed <==> !table[ip].pinned && table[ip].mac != mac && tested - last >= 10_000_000
        else if |table| < 4096 then changed
        else changed <==> tested - last >= 10_000_000 && CanEvict(table))
    && (if changed then ip in after && after[ip] == Neighbor(mac, false) else after == table)
    && (changed && (ip in table || |table| < 4096) ==> after == table[ip := Neighbor(mac, false)])
  }

  lemma {:induction false} LearnOutcome(table: Table, last: int, ip: Ip, mac: bytes, tested: int, now: int,
                                        order: seq<Ip>)
    requires Order(order, table)
    ensures var w :=
              if Worthwhile(table, last, ip, mac, tested) then Write(table, last, ip, Neighbor(mac, false), now, order)
              else Written(table, last, false, Nobody);
            tested <= now ==> Learned(table, last, ip, mac, tested, now, w.changed, w.table)
  {
    OrderCovers(order, table);
    VictimIs(order, table);
  }

  /** Pinning is never held up: it fails only where it is so already, or every entry of a full table is pinned. */
  ghost predicate PinnedTo(table: Table, ip: Ip, mac: bytes, changed: bool, after: Table) {
    && (if ip in table then changed <==> table[ip] != Neighbor(mac, true)
        else changed <==> |table| < 4096 || CanEvict(table))
    && (if changed then ip in after && after[ip] == Neighbor(mac, true) else after == table)
  }

  lemma {:induction false} PinOutcome(table: Table, last: int, ip: Ip, mac: bytes, now: int, order: seq<Ip>)
    requires Order(order, table)
    ensures var w := Write(table, last, ip, Neighbor(mac, true), now, order);
            PinnedTo(table, ip, mac, w.changed, w.table)
  {
    OrderCovers(order, table);
    VictimIs(order, table);
  }

  class Neighbors {
    var table: Table
    var lastWrite: int

    constructor ()
      ensures table == map[] && lastWrite == 0
    {
      table, lastWrite := map[], 0;
    }

    /**
     Learns an address when nothing comes between the snapshot and the write: `tested` and `now` are
     read from the clock.
     */
    method Learn(ip: Ip, mac: bytes, tested: int, now: int, order: seq<Ip>) returns (changed: bool, victim: Victim)
      requires Order(order, table)
      modifies this
      ensures Written(table, lastWrite, changed, victim) ==
              if Worthwhile(old(table), old(lastWrite), ip, mac, tested)
              then Write(old(table), old(lastWrite), ip, Neighbor(mac, false), now, order)
              else Written(old(table), old(lastWrite), false, Nobody)
      ensures tested <= now ==> Learned(old(table), old(lastWrite), ip, mac, tested, now, changed, table)
    {
      LearnOutcome(table, lastWrite, ip, mac, tested, now, order);
      changed, victim := false, Nobody;
      if ip in table && (table[ip].mac == mac || table[ip].pinned) {
        return;
      }
      if ip in table || |table| >= MAX_NEIGHBORS {
        if tested - lastWrite < WRITE_INTERVAL {
          return;
        }
      }
      changed, victim := Publish(ip, Neighbor(mac, false), now, order);
    }

    /** Pins an address. */
    method Pin(ip: Ip, mac: bytes, now: int, order: seq<Ip>) returns (changed: bool, victim: Victim)
      requires Order(order, table)
      modifies this
      ensures Written(table, lastWrite, changed, victim) ==
              Write(old(table), old(lastWrite), ip, Neighbor(mac, true), now, order)
      ensures PinnedTo(old(table), ip, mac, changed, table)
    {
      PinOutcome(table, lastWrite, ip, mac, now, order);
      changed, victim := Publish(ip, Neighbor(mac, true), now, order);
    }

    /** Copies the table with one entry set, and one left out where it is full. */
    method Publish(ip: Ip, nb: Neighbor, now: int, order: seq<Ip>) returns (changed: bool, victim: Victim)
      requires Order(order, table)
      modifies this
      ensures Written(table, lastWrite, changed, victim) == Write(old(table), old(lastWrite), ip, nb, now, order)
    {
      changed, victim := false, Nobody;
      if Refused(table, lastWrite, ip, nb, now) {
        return;
      }
      var m, evict, gone := Copy(ip !in table && |table| >= MAX_NEIGHBORS, order);
      if evict {
        return;
      }
      table, lastWrite := m[ip := nb], now;
      changed, victim := true, gone;
    }

    method Copy(full: bool, order: seq<Ip>) returns (m: Table, evict: bool, gone: Victim)
      requires Order(order, table)
      ensures !full ==> m == table && !evict && gone == Nobody
      ensures full ==> gone == FirstUnpinned(order, table) && evict == (gone == Nobody)
      ensures full && !evict ==> m == table - {gone.ip}
    {
      hide Order;
      m, evict, gone := map[], full, Nobody;
      OrderCovers(order, table);
      for i := 0 to |order|
        invariant evict == (full && gone == Nobody) && (!full ==> gone == Nobody)
        invariant full ==> FirstUnpinned(order, table) == if evict then FirstUnpinned(order[i..], table) else gone
        invariant forall k {:trigger k in m} :: k in m <==> k in order[..i] && gone != Evicted(k)
        invariant gone != Nobody ==> gone.ip in order[..i]
        invariant forall k {:trigger m[k]} :: k in m ==> k in table && m[k] == table[k]
      {
        var k := order[i];
        OrderAt(order, table, i);
        assert order[i..][0] == k && order[i..][1..] == order[i + 1..];
        assert order[..i + 1] == order[..i] + [k];
        if evict && !table[k].pinned {
          evict, gone := false, Evicted(k);
        } else {
          m := m[k := table[k]];
        }
      }
      assert order[|order|..] == [] && order[..|order|] == order;
    }
  }

  // ------------------------------------------------------------------ runs

  /** What a learner is at: it has a snapshot, or has decided to write. */
  datatype Thread = Snapped(ip: Ip, mac: bytes, seen: Table) | Cleared(ip: Ip, mac: bytes)

  /** A write that took effect. */
  datatype Event = Event(now: int, learned: bool, replaced: bool)

  datatype State = State(table: Table, last: int, threads: map<nat, Thread>, log: seq<Event>)

  /** One step of a learner or of a pinning caller; the locked write is one step. */
  datatype Step =
    | Load(t: nat, ip: Ip, mac: bytes)
    | Test(t: nat, now: int)
    | Store(t: nat, now: int, order: seq<Ip>)
    | Pin(ip: Ip, mac: bytes, now: int, order: seq<Ip>)

  ghost predicate Enabled(s: State, a: Step) {
    match a
    case Load(t, _, _) => t !in s.threads
    case Test(t, _) => t in s.threads && s.threads[t].Snapped?
    case Store(t, _, order) => t in s.threads && s.threads[t].Cleared? && Order(order, s.table)
    case Pin(_, _, _, order) => Order(order, s.table)
  }

  /** The state after a write, with the write in the log if it took effect. */
  ghost function After(s: State, ip: Ip, nb: Neighbor, now: int, order: seq<Ip>): State
    requires Order(order, s.table)
  {
    var w := Write(s.table, s.last, ip, nb, now, order);
    var e := Event(now, !nb.pinned, ip in s.table || w.victim != Nobody);
    s.(table := w.table, last := w.last, log := if w.changed then s.log + [e] else s.log)
  }

  ghost function Next(s: State, a: Step): State
    requires Enabled(s, a)
  {
    match a
    case Load(t, ip, mac) => s.(threads := s.threads[t := Snapped(ip, mac, s.table)])
    case Test(t, now) =>
      var th := s.threads[t];
      if Worthwhile(th.seen, s.last, th.ip, th.mac, now) then s.(threads := s.threads[t := Cleared(th.ip, th.mac)])
      else s.(threads := s.threads - {t})
    case Store(t, now, order) =>
      var th := s.threads[t];
      After(s, th.ip, Neighbor(th.mac, false), now, order).(threads := s.threads - {t})
    case Pin(ip, mac, now, order) => After(s, ip, Neighbor(mac, true), now, order)
  }

  const START := State(map[], 0, map[], [])

  ghost predicate Follows(s: State, run: seq<Step>)
    decreases |run|
  {
    run == [] || (Enabled(s, run[0]) && Follows(Next(s, run[0]), run[1..]))
  }

  ghost function Final(s: State, run: seq<Step>): State
    requires Follows(s, run)
    decreases |run|
  {
    if run == [] then s else Final(Next(s, run[0]), run[1..])
  }

  /** Learned writes that replace something keep their distance from the write before them. */
  ghost predicate Spaced(log: seq<Event>) {
    forall i {:trigger log[i]} :: 0 < i < |log| && log[i].learned && log[i].replaced ==>
      log[i].now - log[i - 1].now >= WRITE_INTERVAL
  }

  ghost predicate Inv(s: State) {
    |s.table| <= MAX_NEIGHBORS && Spaced(s.log) && (s.log != [] ==> s.last == s.log[|s.log| - 1].now)
  }

  /**
   What one write does to the table: one entry, and one unpinned entry less exactly when it is full
   and the address new.
   */
  ghost predicate Changes(table: Table, ip: Ip, nb: Neighbor, w: Written) {
    if !w.changed then w.table == table && w.victim == Nobody
    else if w.victim == Nobody then (ip in table || |table| < MAX_NEIGHBORS) && w.table == table[ip := nb]
    else
      && |table| >= MAX_NEIGHBORS && ip !in table && w.victim.ip in table && !table[w.victim.ip].pinned
      && w.table == (table - {w.victim.ip})[ip := nb]
  }

  lemma {:induction false} WriteChanges(table: Table, last: int, ip: Ip, nb: Neighbor, now: int, order: seq<Ip>)
    requires Order(order, table)
    ensures Changes(table, ip, nb, Write(table, last, ip, nb, now, order))
    ensures Write(table, last, ip, nb, now, order).changed <==>
              && !Refused(table, last, ip, nb, now)
              && (ip in table || |table| < MAX_NEIGHBORS || exists k :: k in table && !table[k].pinned)
  {
    OrderCovers(order, table);
    VictimIs(order, table);
  }

  lemma {:induction false} VictimIs(order: seq<Ip>, table: Table)
    requires forall i {:trigger order[i]} :: 0 <= i < |order| ==> order[i] in table
    ensures var v := FirstUnpinned(order, table); v != Nobody ==> v.ip in table && !table[v.ip].pinned
    ensures FirstUnpinned(order, table) == Nobody <==> forall i {:trigger order[i]} :: 0 <= i < |order| ==>
            table[order[i]].pinned
  {
    if order != [] {
      VictimIs(order[1..], table);
      assert forall i {:trigger order[i]} :: 0 < i < |order| ==> order[i] == order[1..][i - 1];
    }
  }

  lemma {:induction false} SizeAfter(table: Table, ip: Ip, nb: Neighbor, w: Written)
    requires Changes(table, ip, nb, w) && |table| <= MAX_NEIGHBORS
    ensures |w.table| <= MAX_NEIGHBORS
  {
    if w.changed {
      var keys := if w.victim == Nobody then table.Keys else table.Keys - {w.victim.ip};
      assert w.table.Keys == keys + {ip};
      assert |table.Keys| == |table| && |w.table.Keys| == |w.table|;
    }
  }

  lemma {:induction false} AfterKeeps(s: State, ip: Ip, nb: Neighbor, now: int, order: seq<Ip>)
    requires Inv(s) && Order(order, s.table)
    ensures Inv(After(s, ip, nb, now, order))
  {
    var w := Write(s.table, s.last, ip, nb, now, order);
    WriteChanges(s.table, s.last, ip, nb, now, order);
    SizeAfter(s.table, ip, nb, w);
  }

  lemma {:induction false} StepKeeps(s: State, a: Step)
    requires Inv(s) && Enabled(s, a)
    ensures Inv(Next(s, a))
  {
    hide After, Write, Order;
    match a {
      case Load(_, _, _) =>
      case Test(_, _) =>
      case Store(t, now, order) => AfterKeeps(s, s.threads[t].ip, Neighbor(s.threads[t].mac, false), now, order);
      case Pin(ip, mac, now, order) => AfterKeeps(s, ip, Neighbor(mac, true), now, order);
    }
  }

  /** Over every interleaving the table stays bounded and replacing writes stay apart. */
  lemma {:induction false} EveryInterleaving(s: State, run: seq<Step>)
    requires Inv(s) && Follows(s, run)
    ensures Inv(Final(s, run))
    decreases |run|
  {
    hide Enabled, Next;
    if run != [] {
      StepKeeps(s, run[0]);
      EveryInterleaving(Next(s, run[0]), run[1..]);
    }
  }

  lemma {:induction false} FromStart(run: seq<Step>)
    requires Follows(START, run)
    ensures var s := Final(START, run); |s.table| <= MAX_NEIGHBORS && Spaced(s.log)
  {
    EveryInterleaving(START, run);
  }

  ghost predicate PinsAgain(run: seq<Step>, ip: Ip) {
    exists i {:trigger run[i]} :: 0 <= i < |run| && run[i].Pin? && run[i].ip == ip
  }

  /** A pinned address keeps its MAC until it is pinned again. */
  lemma {:induction false} PinnedStays(s: State, run: seq<Step>, ip: Ip)
    requires Follows(s, run) && ip in s.table && s.table[ip].pinned && !PinsAgain(run, ip)
    ensures var t := Final(s, run).table; ip in t && t[ip] == s.table[ip]
    decreases |run|
  {
    hide Enabled, Next;
    if run != [] {
      assert !(run[0].Pin? && run[0].ip == ip);
      PinnedStep(s, run[0], ip);
      assert forall i :: 0 <= i < |run[1..]| ==> run[1..][i] == run[i + 1];
      PinnedStays(Next(s, run[0]), run[1..], ip);
    }
  }

  lemma {:induction false} PinnedStep(s: State, a: Step, ip: Ip)
    requires Enabled(s, a) && ip in s.table && s.table[ip].pinned && !(a.Pin? && a.ip == ip)
    ensures var t := Next(s, a).table; ip in t && t[ip] == s.table[ip]
  {
    match a {
      case Load(_, _, _) =>
      case Test(_, _) =>
      case Store(t, now, order) =>
        WriteChanges(s.table, s.last, s.threads[t].ip, Neighbor(s.threads[t].mac, false), now, order);
      case Pin(other, mac, now, order) =>
        WriteChanges(s.table, s.last, other, Neighbor(mac, true), now, order);
    }
  }
}
