/**
 Steering filters. A filter asks, of each kind of condition it names, that some one of
 them hold; it is compiled to at most sixteen rules that together mean the same.
 */
module Steering {
  import opened Words
  import opened Bytes

  const MAX_VLAN := 4095
  const MAX_RULES := 16

  datatype Kind = DstMac | Vlan | EtherType | IpProto | SrcIp | DstIp | SrcPort | DstPort | Unknown(code: u8)

  /** An address prefix: the leading `len` bits of `addr`. */
  datatype Prefix = NoPrefix | Prefix(addr: seq<bool>, len: nat) {
    predicate IsValid() { Prefix? && len <= |addr| }

    predicate Contains(a: seq<bool>) { IsValid() && |a| == |addr| && a[..len] == addr[..len] }
  }

  /** One condition. Only the field its kind names is looked at, and the protocol of a port. */
  datatype Match = Match(kind: Kind, mac: bytes, vlan: u16, etherType: u16, proto: u8, port: u16, prefix: Prefix)

  datatype Filter = Filter(matches: seq<Match>, promiscuous: bool)

  /** One conjunction. A zero EtherType and an invalid prefix are fields not set. */
  datatype Rule = Rule(
    mac: bytes, macSet: bool, vlan: u16, vlanSet: bool, etherType: u16, proto: u8, protoSet: bool,
    src: Prefix, dst: Prefix, srcPort: u16, srcPortSet: bool, dstPort: u16, dstPortSet: bool, promiscuous: bool)

  /** What a filter can see of a packet; a field the packet does not have is absent. */
  datatype Packet = Packet(
    mac: bytes, vlan: Field<u16>, etherType: u16, proto: Field<u8>,
    src: Field<seq<bool>>, dst: Field<seq<bool>>, srcPort: Field<u16>, dstPort: Field<u16>)

  datatype Field<T> = Absent | Present(value: T)

  // ----------------------------------------------------------------- meaning

  /** A packet meets one condition, looking at the field its kind names. */
  predicate Holds(m: Match, p: Packet) {
    match m.kind
    case DstMac => p.mac == m.mac
    case Vlan => p.vlan == Present(m.vlan)
    case EtherType => p.etherType == m.etherType
    case IpProto => p.proto == Present(m.proto)
    case SrcIp => p.src.Present? && m.prefix.Contains(p.src.value)
    case DstIp => p.dst.Present? && m.prefix.Contains(p.dst.value)
    case SrcPort => p.srcPort == Present(m.port)
    case DstPort => p.dstPort == Present(m.port)
    case Unknown(_) => false
  }

  /** A packet meets some condition of kind `k`, if there is any. */
  ghost predicate Meets(ms: seq<Match>, k: Kind, p: Packet) {
    OfKind(ms, k) != [] ==> Some(OfKind(ms, k), p)
  }

  ghost predicate Some(ms: seq<Match>, p: Packet) {
    exists i {:trigger ms[i]} :: 0 <= i < |ms| && Holds(ms[i], p)
  }

  /** The conditions of one kind, in order. */
  function OfKind(ms: seq<Match>, k: Kind): (r: seq<Match>)
    ensures forall i {:trigger r[i]} :: 0 <= i < |r| ==> r[i].kind == k && r[i] in ms
    ensures forall i {:trigger ms[i]} :: 0 <= i < |ms| && ms[i].kind == k ==> ms[i] in r
  {
    if ms == [] then []
    else
      var rest := OfKind(ms[..|ms| - 1], k);
      var m := ms[|ms| - 1];
      assert forall i :: 0 <= i < |ms| - 1 ==> ms[i] == ms[..|ms| - 1][i];
      if m.kind == k then rest + [m] else rest
  }

  /** The packets a filter is for: of every kind it names, some alternative is met. */
  ghost predicate Satisfies(f: Filter, p: Packet) {
    f.promiscuous || forall k {:trigger OfKind(f.matches, k)} :: Meets(f.matches, k, p)
  }

  /** Every set field of a rule holds. */
  predicate Matches(r: Rule, p: Packet) {
    r.promiscuous ||
    (&& (r.macSet ==> p.mac == r.mac)
     && (r.vlanSet ==> p.vlan == Present(r.vlan))
     && (r.etherType != 0 ==> p.etherType == r.etherType)
     && (r.protoSet ==> p.proto == Present(r.proto))
     && (r.src.IsValid() ==> p.src.Present? && r.src.Contains(p.src.value))
     && (r.dst.IsValid() ==> p.dst.Present? && r.dst.Contains(p.dst.value))
     && (r.srcPortSet ==> p.srcPort == Present(r.srcPort))
     && (r.dstPortSet ==> p.dstPort == Present(r.dstPort)))
  }

  ghost predicate AnyMatches(rs: seq<Rule>, p: Packet) {
    exists i {:trigger rs[i]} :: 0 <= i < |rs| && Matches(rs[i], p)
  }

  // -------------------------------------------------------------- validation

  predicate PortKind(k: Kind) { k == SrcPort || k == DstPort }

  /** A condition that names a protocol. */
  predicate Names(m: Match) { m.kind == IpProto || (PortKind(m.kind) && m.proto != 0) }

  /** A condition that a rule can carry. */
  predicate Sound(m: Match) {
    match m.kind
    case SrcIp => m.prefix.IsValid()
    case DstIp => m.prefix.IsValid()
    case Vlan => m.vlan <= MAX_VLAN
    case EtherType => m.etherType != 0
    case Unknown(_) => false
    case _ => true
  }

  ghost predicate AllSound(ms: seq<Match>) {
    forall i {:trigger ms[i]} :: 0 <= i < |ms| ==> Sound(ms[i])
  }

  /** No two conditions name different protocols. */
  ghost predicate OneProto(ms: seq<Match>) {
    forall i, j {:trigger ms[i], ms[j]} :: 0 <= i < |ms| && 0 <= j < |ms| && Names(ms[i]) && Names(ms[j]) ==>
      ms[i].proto == ms[j].proto
  }

  ghost predicate AnyNames(ms: seq<Match>) { exists i {:trigger ms[i]} :: 0 <= i < |ms| && Names(ms[i]) }

  ghost predicate AnyPort(ms: seq<Match>) { exists i {:trigger ms[i]} :: 0 <= i < |ms| && PortKind(ms[i].kind) }

  /** A filter that does not contradict itself. */
  ghost predicate Consistent(f: Filter) {
    && (f.promiscuous ==> f.matches == [])
    && AllSound(f.matches) && OneProto(f.matches) && (AnyPort(f.matches) ==> AnyNames(f.matches))
  }

  method Validate(f: Filter) returns (ok: bool)
    ensures ok <==> Consistent(f)
  {
    if f.promiscuous && |f.matches| > 0 {
      return false;
    }
    var ms := f.matches;
    var proto, protoSet, wantPort := 0, false, false;
    for i := 0 to |ms|
      invariant AllSound(ms[..i]) && OneProto(ms[..i])
      invariant protoSet <==> AnyNames(ms[..i])
      invariant wantPort <==> AnyPort(ms[..i])
      invariant forall j {:trigger ms[j]} :: 0 <= j < i && Names(ms[j]) ==> ms[j].proto == proto
    {
      var m := ms[i];
      assert ms[..i + 1] == ms[..i] + [m];
      if !Sound(m) || (Names(m) && protoSet && proto != m.proto) {
        return false;
      }
      if Names(m) {
        proto, protoSet := m.proto, true;
      }
      wantPort := wantPort || PortKind(m.kind);
    }
    assert ms[..|ms|] == ms;
    return !wantPort || protoSet;
  }

  /** A condition no rule can carry: a VLAN past twelve bits, no EtherType, no prefix, or of no known kind. */
  ghost predicate Broken(m: Match) {
    || (m.kind == Vlan && m.vlan >= 0x1000)
    || (m.kind == EtherType && m.etherType == 0)
    || ((m.kind == SrcIp || m.kind == DstIp) && (m.prefix == NoPrefix || |m.prefix.addr| < m.prefix.len))
    || m.kind.Unknown?
  }

  /** Two conditions that name different protocols; a port that names none takes any. */
  ghost predicate Clash(m: Match, n: Match) {
    && m.proto != n.proto
    && (m.kind == IpProto || (m.kind in {SrcPort, DstPort} && m.proto > 0))
    && (n.kind == IpProto || (n.kind in {SrcPort, DstPort} && n.proto > 0))
  }

  /** A port, where nothing says of which protocol. */
  ghost predicate Portless(ms: seq<Match>) {
    && (exists m {:trigger m in ms} :: m in ms && m.kind in {SrcPort, DstPort})
    && (forall m {:trigger m in ms} :: m in ms && m.kind in {SrcPort, DstPort} ==> m.proto == 0)
    && (forall m {:trigger m in ms} :: m in ms ==> m.kind != IpProto)
  }

  /** What a filter is refused for. */
  lemma {:induction false} RefusedIff(f: Filter)
    ensures !Consistent(f) <==>
            || (f.promiscuous && |f.matches| > 0)
            || (exists m {:trigger Broken(m)} :: m in f.matches && Broken(m))
            || (exists m, n {:trigger Clash(m, n)} :: m in f.matches && n in f.matches && Clash(m, n))
            || Portless(f.matches)
  {
    hide Broken, Clash, Portless, Consistent;
    BrokenIff(f.matches);
    ClashIff(f.matches);
    PortlessIff(f.matches);
    ConsistentParts(f);
  }

  lemma {:induction false} ConsistentParts(f: Filter)
    ensures !Consistent(f) <==>
            || (f.promiscuous && |f.matches| > 0) || !AllSound(f.matches) || !OneProto(f.matches)
            || (AnyPort(f.matches) && !AnyNames(f.matches))
  {
    hide AllSound, OneProto, AnyPort, AnyNames;
  }

  lemma {:induction false} BrokenIff(ms: seq<Match>)
    ensures !AllSound(ms) <==> exists m {:trigger Broken(m)} :: m in ms && Broken(m)
  {
    if i: nat :| i < |ms| && !Sound(ms[i]) {
      assert Broken(ms[i]);
    }
    if m :| m in ms && Broken(m) {
      assert !Sound(m);
    }
  }

  lemma {:induction false} ClashIff(ms: seq<Match>)
    ensures !OneProto(ms) <==> exists m, n {:trigger Clash(m, n)} :: m in ms && n in ms && Clash(m, n)
  {
    if i: nat, j: nat :|
      i < |ms| && j < |ms| && Names(ms[i]) && Names(ms[j]) && ms[i].proto != ms[j].proto {
      assert Clash(ms[i], ms[j]);
    }
    if m, n :| m in ms && n in ms && Clash(m, n) {
      assert Names(m) && Names(n);
    }
  }

  lemma {:induction false} PortlessIff(ms: seq<Match>)
    ensures AnyPort(ms) && !AnyNames(ms) <==> Portless(ms)
  {
    forall i | 0 <= i < |ms|
      ensures ms[i] in ms
    {
    }
    if AnyPort(ms) && !AnyNames(ms) {
      var i: nat :| i < |ms| && PortKind(ms[i].kind);
      assert ms[i] in ms && ms[i].kind in {SrcPort, DstPort};
    }
    if Portless(ms) {
      var m :| m in ms && m.kind in {SrcPort, DstPort};
      var i: nat :| i < |ms| && ms[i] == m;
      assert PortKind(ms[i].kind);
    }
  }

  // ---------------------------------------------------------------- expansion

  /** The rule with the field that `m` is about set. */
  function Set(r: Rule, m: Match): Rule {
    match m.kind
    case DstMac => r.(mac := m.mac, macSet := true)
    case Vlan => r.(vlan := m.vlan, vlanSet := true)
    case EtherType => r.(etherType := m.etherType)
    case IpProto => r.(proto := m.proto, protoSet := true)
    case SrcIp => r.(src := m.prefix)
    case DstIp => r.(dst := m.prefix)
    case SrcPort => r.(srcPort := m.port, srcPortSet := true)
    case DstPort => r.(dstPort := m.port, dstPortSet := true)
    case Unknown(_) => r
  }

  /** The field of kind `k` is not set. */
  predicate Free(r: Rule, k: Kind) {
    match k
    case DstMac => !r.macSet
    case Vlan => !r.vlanSet
    case EtherType => r.etherType == 0
    case IpProto => !r.protoSet
    case SrcIp => !r.src.IsValid()
    case DstIp => !r.dst.IsValid()
    case SrcPort => !r.srcPortSet
    case DstPort => !r.dstPortSet
    case Unknown(_) => true
  }

  /** Setting a free field adds exactly its condition, and leaves the other fields as they were. */
  lemma {:induction false} SetAdds(r: Rule, m: Match, p: Packet)
    requires Sound(m) && Free(r, m.kind) && !r.promiscuous
    ensures Matches(Set(r, m), p) <==> Matches(r, p) && Holds(m, p)
  {
    hide Prefix.Contains, Prefix.IsValid;
    match m.kind {
      case DstMac => assert Set(r, m) == r.(mac := m.mac, macSet := true);
      case Vlan => assert Set(r, m) == r.(vlan := m.vlan, vlanSet := true);
      case EtherType => assert Set(r, m) == r.(etherType := m.etherType);
      case IpProto => assert Set(r, m) == r.(proto := m.proto, protoSet := true);
      case SrcIp => assert Set(r, m) == r.(src := m.prefix);
      case DstIp => assert Set(r, m) == r.(dst := m.prefix);
      case SrcPort => assert Set(r, m) == r.(srcPort := m.port, srcPortSet := true);
      case DstPort => assert Set(r, m) == r.(dstPort := m.port, dstPortSet := true);
    }
  }

  lemma {:induction false} SetKeeps(r: Rule, m: Match, k: Kind)
    requires k != m.kind && Free(r, k)
    ensures Free(Set(r, m), k) && Set(r, m).promiscuous == r.promiscuous
  {
    hide Prefix.IsValid;
  }

  /** Every rule with every alternative. */
  function Cross(rs: seq<Rule>, n: nat, put: (Rule, nat) -> Rule): (out: seq<Rule>)
    ensures |out| == Times(|rs|, n)
    decreases |rs|
  {
    if rs == [] then []
    else Cross(rs[..|rs| - 1], n, put) + seq(n, i requires 0 <= i < n => put(rs[|rs| - 1], i))
  }

  /** Multiplies the rules by `n` alternatives, unless they are too many already. */
  method ExpandRules(rs: seq<Rule>, n: nat, put: (Rule, nat) -> Rule) returns (out: seq<Rule>)
    ensures out == if n == 0 || |rs| > MAX_RULES then rs else Cross(rs, n, put)
  {
    if n == 0 || |rs| > MAX_RULES {
      return rs;
    }
    out := [];
    for j := 0 to |rs|
      invariant out == Cross(rs[..j], n, put)
    {
      assert rs[..j + 1][..j] == rs[..j];
      ghost var before := out;
      for i := 0 to n
        invariant out == before + seq(i, c requires 0 <= c < i => put(rs[j], c))
      {
        out := out + [put(rs[j], i)];
      }
    }
    assert rs[..|rs|] == rs;
  }

  /** Sets a rule's field to the `i`th alternative. */
  function Chooser(alts: seq<Match>): (Rule, nat) -> Rule {
    (r, i: nat) => if i < |alts| then Set(r, alts[i]) else r
  }

  function Grown(rs: seq<Rule>, alts: seq<Match>): seq<Rule> {
    if alts == [] || |rs| > MAX_RULES then rs else Cross(rs, |alts|, Chooser(alts))
  }

  /** Removes repeated protocols, keeping the first of each. */
  method Dedupe(ps: seq<Match>) returns (out: seq<Match>)
    ensures out == Firsts(ps)
  {
    if |ps| < 2 {
      return ps;
    }
    out := [];
    var seen: set<u8> := {};
    for i := 0 to |ps|
      invariant out == Firsts(ps[..i])
      invariant forall v {:trigger v in seen} :: v in seen <==> v in Protos(out)
    {
      assert ps[..i + 1][..i] == ps[..i];
      ProtosSnoc(out, ps[i]);
      if ps[i].proto !in seen {
        seen := seen + {ps[i].proto};
        out := out + [ps[i]];
      }
    }
    assert ps[..|ps|] == ps;
  }

  function Protos(ps: seq<Match>): seq<u8> {
    seq(|ps|, i requires 0 <= i < |ps| => ps[i].proto)
  }

  lemma {:induction false} ProtosSnoc(ps: seq<Match>, m: Match)
    ensures Protos(ps + [m]) == Protos(ps) + [m.proto]
  {
  }

  function Firsts(ps: seq<Match>): seq<Match> {
    if ps == [] then []
    else
      var rest, m := Firsts(ps[..|ps| - 1]), ps[|ps| - 1];
      if m.proto in Protos(rest) then rest else rest + [m]
  }

  /** The alternatives of a kind that rules are made for. */
  function Alternatives(ms: seq<Match>, k: Kind): seq<Match> {
    if k == IpProto then Firsts(OfKind(ms, k)) else OfKind(ms, k)
  }

  /** The order in which the kinds are expanded. */
  const KINDS: seq<Kind> := [DstMac, Vlan, EtherType, IpProto, DstPort, SrcPort, SrcIp, DstIp]

  const BASE := Rule([], false, 0, false, 0, 0, false, NoPrefix, NoPrefix, 0, false, 0, false, false)

  ghost function GrownAll(rs: seq<Rule>, ms: seq<Match>, ks: seq<Kind>): seq<Rule>
    decreases |ks|
  {
    if ks == [] then rs else GrownAll(Grown(rs, Alternatives(ms, ks[0])), ms, ks[1..])
  }

  /** How many alternatives a kind offers: a protocol is one however often it is named. */
  ghost function Choices(ms: seq<Match>, k: Kind): nat {
    if OfKind(ms, k) == [] || k == IpProto then 1 else |OfKind(ms, k)|
  }

  /** The product of the alternatives. */
  ghost function Needed(ms: seq<Match>, ks: seq<Kind>): (n: nat)
    ensures n > 0
  {
    if ks == [] then 1 else Multiplied(Choices(ms, ks[0]), Needed(ms, ks[1..]))
  }

  function Multiplied(a: nat, b: nat): (n: nat)
    ensures a > 0 && b > 0 ==> n > 0
  {
    a * b
  }

  datatype Result = Compiled(rules: seq<Rule>) | Contradictory | TooMany

  /** Compiles a filter to rules. */
  method Rules(f: Filter) returns (r: Result)
    ensures r.Contradictory? <==> !Consistent(f)
    ensures r.TooMany? <==> Consistent(f) && !f.promiscuous && Needed(f.matches, KINDS) > MAX_RULES
    ensures r.Compiled? && !f.promiscuous ==> |r.rules| == Needed(f.matches, KINDS)
    ensures r.Compiled? ==> forall p {:trigger Satisfies(f, p)} :: Satisfies(f, p) <==> AnyMatches(r.rules, p)
  {
    hide GrownAll, Needed, Consistent, Satisfies, AnyMatches;
    var ok := Validate(f);
    if !ok {
      return Contradictory;
    }
    if f.promiscuous {
      Everything(f);
      return Compiled([BASE.(promiscuous := true)]);
    }
    var rules := Expand(f.matches);
    Counted(f);
    if |rules| > MAX_RULES {
      return TooMany;
    }
    forall p
      ensures Satisfies(f, p) <==> AnyMatches(rules, p)
    {
      Meaning(f, p);
    }
    return Compiled(rules);
  }

  /** Sorts the conditions into one list a kind. */
  method Collect(ms: seq<Match>) returns (alts: map<Kind, seq<Match>>)
    ensures forall k {:trigger Listed(alts, k)} :: Listed(alts, k) == OfKind(ms, k)
  {
    hide OfKind;
    alts := map[];
    NoneOfKind();
    for i := 0 to |ms|
      invariant forall k {:trigger Listed(alts, k)} :: Listed(alts, k) == OfKind(ms[..i], k)
    {
      ghost var was := alts;
      alts := alts[ms[i].kind := Listed(alts, ms[i].kind) + [ms[i]]];
      forall k
        ensures Listed(alts, k) == OfKind(ms[..i + 1], k)
      {
        assert Listed(was, k) == OfKind(ms[..i], k);
        OfKindSnoc(ms, i, k);
      }
    }
    assert ms[..|ms|] == ms;
  }

  lemma {:induction false} NoneOfKind()
    ensures forall k {:trigger OfKind([], k)} :: OfKind([], k) == []
  {
  }

  lemma {:induction false} OfKindSnoc(ms: seq<Match>, i: nat, k: Kind)
    requires i < |ms|
    ensures OfKind(ms[..i + 1], k) == if ms[i].kind == k then OfKind(ms[..i], k) + [ms[i]] else OfKind(ms[..i], k)
  {
    assert ms[..i + 1][..i] == ms[..i];
  }

  function Listed(alts: map<Kind, seq<Match>>, k: Kind): seq<Match> {
    if k in alts then alts[k] else []
  }

  /** The kinds are expanded one after the other. */
  method Expand(ms: seq<Match>) returns (rules: seq<Rule>)
    ensures rules == GrownAll([BASE], ms, KINDS)
  {
    hide GrownAll, Grown, OfKind, Firsts, Listed;
    var alts := Collect(ms);
    rules := ExpandFirst([BASE], alts, ms);
    rules := ExpandLast(rules, alts, ms);
    NoneLeft(rules, ms);
    assert KINDS[0..] == KINDS && KINDS[8..] == [];
  }

  /** The link-layer kinds, and the protocol. */
  method ExpandFirst(rs: seq<Rule>, alts: map<Kind, seq<Match>>, ghost ms: seq<Match>) returns (out: seq<Rule>)
    requires forall k {:trigger Listed(alts, k)} :: Listed(alts, k) == OfKind(ms, k)
    ensures GrownAll(rs, ms, KINDS[0..]) == GrownAll(out, ms, KINDS[4..])
  {
    hide GrownAll, Grown, OfKind, Firsts, Listed;
    var protos := Dedupe(Listed(alts, IpProto));
    out := ExpandKind(rs, Listed(alts, DstMac), ms, 0);
    out := ExpandKind(out, Listed(alts, Vlan), ms, 1);
    out := ExpandKind(out, Listed(alts, EtherType), ms, 2);
    out := ExpandKind(out, protos, ms, 3);
  }

  /** The ports and the addresses. */
  method ExpandLast(rs: seq<Rule>, alts: map<Kind, seq<Match>>, ghost ms: seq<Match>) returns (out: seq<Rule>)
    requires forall k {:trigger Listed(alts, k)} :: Listed(alts, k) == OfKind(ms, k)
    ensures GrownAll(rs, ms, KINDS[4..]) == GrownAll(out, ms, KINDS[8..])
  {
    hide GrownAll, Grown, OfKind, Firsts, Listed;
    out := ExpandKind(rs, Listed(alts, DstPort), ms, 4);
    out := ExpandKind(out, Listed(alts, SrcPort), ms, 5);
    out := ExpandKind(out, Listed(alts, SrcIp), ms, 6);
    out := ExpandKind(out, Listed(alts, DstIp), ms, 7);
  }

  lemma {:induction false} FromKind(j: nat)
    requires j < |KINDS|
    ensures KINDS[j..] == [KINDS[j]] + KINDS[j + 1..]
  {
  }

  method ExpandKind(rs: seq<Rule>, alts: seq<Match>, ghost ms: seq<Match>, ghost j: nat) returns (out: seq<Rule>)
    requires j < |KINDS| && alts == Alternatives(ms, KINDS[j])
    ensures GrownAll(rs, ms, KINDS[j..]) == GrownAll(out, ms, KINDS[j + 1..])
  {
    hide GrownAll, OfKind, Firsts, Cross, Alternatives, Chooser;
    out := ExpandRules(rs, |alts|, Chooser(alts));
    FromKind(j);
    Peel(rs, ms, KINDS[j..], KINDS[j], KINDS[j + 1..]);
  }

  lemma {:induction false} NoneLeft(rs: seq<Rule>, ms: seq<Match>)
    ensures GrownAll(rs, ms, []) == rs
  {
  }

  lemma {:induction false} Peel(rs: seq<Rule>, ms: seq<Match>, ks: seq<Kind>, k: Kind, rest: seq<Kind>)
    requires ks == [k] + rest
    ensures GrownAll(rs, ms, ks) == GrownAll(Grown(rs, Alternatives(ms, k)), ms, rest)
  {
  }

  // -------------------------------------------------------------------- size

  /** The size of the expansion: the product, or past the bound and known to be. */
  lemma {:induction false} Counted(f: Filter)
    requires Consistent(f)
    ensures var n := |GrownAll([BASE], f.matches, KINDS)|;
            if Needed(f.matches, KINDS) <= MAX_RULES then n == Needed(f.matches, KINDS) else n > MAX_RULES
  {
    hide GrownAll, Needed;
    SizeOf([BASE], f.matches, KINDS);
  }

  lemma {:induction false} SizeOf(rs: seq<Rule>, ms: seq<Match>, ks: seq<Kind>)
    requires OneProto(ms) && rs != []
    ensures var n, all := |GrownAll(rs, ms, ks)|, |rs| * Needed(ms, ks);
            if all <= MAX_RULES then n == all else n > MAX_RULES
    decreases |ks|
  {
    if ks != [] {
      var c, more := Choices(ms, ks[0]), Needed(ms, ks[1..]);
      var next := Grown(rs, Alternatives(ms, ks[0]));
      GrownSize(rs, ms, ks[0]);
      Regroup(|rs|, c, more);
      SizeOf(next, ms, ks[1..]);
    }
  }

  lemma {:induction false} Regroup(a: nat, c: nat, m: nat)
    requires c > 0 && m > 0
    ensures a * Multiplied(c, m) == a * c * m && a * c * m >= a * m >= a
  {
    assert a * c >= a;
    assert (a * c - a) * m >= 0;
    assert a * m >= a;
  }

  lemma {:induction false} GrownSize(rs: seq<Rule>, ms: seq<Match>, k: Kind)
    requires OneProto(ms) && rs != []
    ensures |Grown(rs, Alternatives(ms, k))| == if |rs| > MAX_RULES then |rs| else |rs| * Choices(ms, k)
  {
    var alts := Alternatives(ms, k);
    if k == IpProto {
      OneFirst(OfKind(ms, k));
    }
    TimesIs(|rs|, |alts|);
  }

  /** Conditions that agree on the protocol leave one after repeats are removed. */
  lemma {:induction false} OneFirst(ps: seq<Match>)
    requires forall i, j {:trigger ps[i], ps[j]} :: 0 <= i < |ps| && 0 <= j < |ps| ==> ps[i].proto == ps[j].proto
    ensures |Firsts(ps)| == if ps == [] then 0 else 1
    ensures ps != [] ==> Firsts(ps)[0].proto == ps[0].proto
  {
    if |ps| > 1 {
      OneFirst(ps[..|ps| - 1]);
      assert Protos(Firsts(ps[..|ps| - 1])) == [ps[0].proto];
    }
  }

  // ----------------------------------------------------------------- meaning

  lemma {:induction false} Everything(f: Filter)
    requires f.promiscuous
    ensures forall p {:trigger Satisfies(f, p)} :: Satisfies(f, p) && AnyMatches([BASE.(promiscuous := true)], p)
  {
    forall p
      ensures AnyMatches([BASE.(promiscuous := true)], p)
    {
      assert Matches([BASE.(promiscuous := true)][0], p);
    }
  }

  /** Rules that may still be given a condition of each of the kinds `ks`. */
  ghost predicate Open(rs: seq<Rule>, ks: seq<Kind>) {
    forall i, j {:trigger rs[i], ks[j]} :: 0 <= i < |rs| && 0 <= j < |ks| ==> Free(rs[i], ks[j])
  }

  ghost predicate Plain(rs: seq<Rule>) { forall i {:trigger rs[i]} :: 0 <= i < |rs| ==> !rs[i].promiscuous }

  ghost predicate Distinct(ks: seq<Kind>) {
    forall i, j {:trigger ks[i], ks[j]} :: 0 <= i < j < |ks| ==> ks[i] != ks[j]
  }

  /** What the expansion of all kinds means, unless it has grown past the bound. */
  lemma {:induction false} Meaning(f: Filter, p: Packet)
    requires Consistent(f) && !f.promiscuous && |GrownAll([BASE], f.matches, KINDS)| <= MAX_RULES
    ensures Satisfies(f, p) <==> AnyMatches(GrownAll([BASE], f.matches, KINDS), p)
  {
    hide GrownAll, OfKind, Matches, Satisfies, AnyMatches, Meets, Open, Plain, Distinct;
    Start(p);
    AllMeans([BASE], f.matches, KINDS, p);
    KindsCover(f, p);
  }

  lemma {:induction false} Start(p: Packet)
    ensures AnyMatches([BASE], p) && Open([BASE], KINDS) && Plain([BASE]) && Distinct(KINDS)
  {
    assert Matches([BASE][0], p);
  }

  ghost predicate MeetsAll(ms: seq<Match>, ks: seq<Kind>, p: Packet) {
    forall j {:trigger ks[j]} :: 0 <= j < |ks| ==> Meets(ms, ks[j], p)
  }

  /** The listed kinds are all there are in a sound filter. */
  lemma {:induction false} KindsCover(f: Filter, p: Packet)
    requires Consistent(f) && !f.promiscuous
    ensures Satisfies(f, p) <==> MeetsAll(f.matches, KINDS, p)
  {
    if MeetsAll(f.matches, KINDS, p) {
      forall k
        ensures Meets(f.matches, k, p)
      {
        if k.Unknown? {
          NoUnknown(f.matches, k);
        } else {
          var j := Place(k);
          assert KINDS[j] == k;
        }
      }
    }
  }

  function Place(k: Kind): (j: nat)
    requires !k.Unknown?
    ensures j < |KINDS| && KINDS[j] == k
  {
    match k
    case DstMac => 0
    case Vlan => 1
    case EtherType => 2
    case IpProto => 3
    case DstPort => 4
    case SrcPort => 5
    case SrcIp => 6
    case DstIp => 7
  }

  lemma {:induction false} NoUnknown(ms: seq<Match>, k: Kind)
    requires AllSound(ms) && k.Unknown?
    ensures OfKind(ms, k) == []
  {
    if ms != [] {
      NoUnknown(ms[..|ms| - 1], k);
      assert Sound(ms[|ms| - 1]);
    }
  }

  lemma {:induction false} AllMeans(rs: seq<Rule>, ms: seq<Match>, ks: seq<Kind>, p: Packet)
    requires AllSound(ms) && Open(rs, ks) && Plain(rs) && Distinct(ks)
    requires |GrownAll(rs, ms, ks)| <= MAX_RULES
    ensures AnyMatches(GrownAll(rs, ms, ks), p) <==> AnyMatches(rs, p) && MeetsAll(ms, ks, p)
    decreases |ks|
  {
    hide OfKind, Matches, AnyMatches, Meets, MeetsAll, GrownAll, Grown, Open, Plain;
    if ks == [] {
      NoneLeft(rs, ms);
      MeetsNone(ms, p);
    } else {
      var next := Grown(rs, Alternatives(ms, ks[0]));
      StaysPast(rs, ms, ks);
      Peel(rs, ms, ks, ks[0], ks[1..]);
      assert [ks[0]] + ks[1..] == ks;
      OneKind(rs, ms, ks[0], ks[1..], p);
      AllMeans(next, ms, ks[1..], p);
      MeetsFirst(ms, ks, p);
    }
  }

  lemma {:induction false} MeetsNone(ms: seq<Match>, p: Packet)
    ensures MeetsAll(ms, [], p)
  {
  }

  lemma {:induction false} MeetsFirst(ms: seq<Match>, ks: seq<Kind>, p: Packet)
    requires ks != []
    ensures MeetsAll(ms, ks, p) <==> Meets(ms, ks[0], p) && MeetsAll(ms, ks[1..], p)
  {
    hide OfKind, Meets;
    if Meets(ms, ks[0], p) && MeetsAll(ms, ks[1..], p) {
      forall j | 0 <= j < |ks|
        ensures Meets(ms, ks[j], p)
      {
        assert j > 0 ==> ks[j] == ks[1..][j - 1];
      }
    }
    if MeetsAll(ms, ks, p) {
      forall j | 0 <= j < |ks[1..]|
        ensures Meets(ms, ks[1..][j], p)
      {
        assert ks[1..][j] == ks[j + 1];
      }
    }
  }

  /** Once past the bound, the expansion stays there. */
  lemma {:induction false} StaysPast(rs: seq<Rule>, ms: seq<Match>, ks: seq<Kind>)
    ensures |rs| > MAX_RULES ==> GrownAll(rs, ms, ks) == rs
    decreases |ks|
  {
    hide OfKind;
    if ks != [] && |rs| > MAX_RULES {
      StaysPast(rs, ms, ks[1..]);
    }
  }

  /** Expanding one kind asks for one of its alternatives, and leaves the later kinds open. */
  lemma {:induction false} OneKind(rs: seq<Rule>, ms: seq<Match>, k: Kind, later: seq<Kind>, p: Packet)
    requires AllSound(ms) && Open(rs, [k] + later) && Plain(rs) && Distinct([k] + later) && |rs| <= MAX_RULES
    ensures var out := Grown(rs, Alternatives(ms, k));
            && (AnyMatches(out, p) <==> AnyMatches(rs, p) && Meets(ms, k, p))
            && Open(out, later) && Plain(out)
  {
    var alts := Alternatives(ms, k);
    SameChoices(ms, k, p);
    forall j | 0 <= j < |later|
      ensures later[j] != k && forall i :: 0 <= i < |rs| ==> Free(rs[i], later[j])
    {
      assert ([k] + later)[j + 1] == later[j] && ([k] + later)[0] == k;
    }
    forall i | 0 <= i < |rs|
      ensures Free(rs[i], k)
    {
      assert ([k] + later)[0] == k;
    }
    if alts != [] {
      CrossMeans(rs, alts, k, p);
      CrossKeeps(rs, alts, k, later);
    }
  }

  /** The alternatives rules are made for are the alternatives of the filter. */
  lemma {:induction false} SameChoices(ms: seq<Match>, k: Kind, p: Packet)
    requires AllSound(ms)
    ensures var alts := Alternatives(ms, k);
            && (alts == [] <==> OfKind(ms, k) == []) && (Some(alts, p) <==> Some(OfKind(ms, k), p))
            && AllSound(alts) && forall i {:trigger alts[i]} :: 0 <= i < |alts| ==> alts[i].kind == k
  {
    if k == IpProto {
      FirstsSame(OfKind(ms, k), p);
    }
  }

  lemma {:induction false} FirstsSame(ps: seq<Match>, p: Packet)
    requires forall i {:trigger ps[i]} :: 0 <= i < |ps| ==> ps[i].kind == IpProto
    ensures var fs := Firsts(ps);
            && (Some(fs, p) <==> Some(ps, p)) && (fs == [] <==> ps == [])
            && forall i {:trigger fs[i]} :: 0 <= i < |fs| ==> fs[i].kind == IpProto
  {
    if ps != [] {
      var init, m := ps[..|ps| - 1], ps[|ps| - 1];
      FirstsSame(init, p);
      assert ps == init + [m];
      SomeSnoc(init, m, p);
      SomeSnoc(Firsts(init), m, p);
      if m.proto in Protos(Firsts(init)) {
        var i :| 0 <= i < |Firsts(init)| && Protos(Firsts(init))[i] == m.proto;
        assert Firsts(init)[i].proto == m.proto;
      }
    }
  }

  lemma {:induction false} SomeSnoc(ps: seq<Match>, m: Match, p: Packet)
    ensures Some(ps + [m], p) <==> Some(ps, p) || Holds(m, p)
  {
    hide Holds;
    if Holds(m, p) {
      assert (ps + [m])[|ps|] == m;
    }
    if Some(ps, p) {
      var i :| 0 <= i < |ps| && Holds(ps[i], p);
      assert (ps + [m])[i] == ps[i];
    }
  }

  lemma {:induction false} CrossMeans(rs: seq<Rule>, alts: seq<Match>, k: Kind, p: Packet)
    requires AllSound(alts) && Plain(rs) && (forall i {:trigger alts[i]} :: 0 <= i < |alts| ==> alts[i].kind == k)
    requires forall i {:trigger rs[i]} :: 0 <= i < |rs| ==> Free(rs[i], k)
    ensures AnyMatches(Cross(rs, |alts|, Chooser(alts)), p) <==> AnyMatches(rs, p) && Some(alts, p)
    decreases |rs|
  {
    if rs != [] {
      var init, r := rs[..|rs| - 1], rs[|rs| - 1];
      assert rs == init + [r];
      CrossMeans(init, alts, k, p);
      var row := seq(|alts|, i requires 0 <= i < |alts| => Chooser(alts)(r, i));
      RowMeans(r, alts, row, p);
      AnyAppends(Cross(init, |alts|, Chooser(alts)), row, p);
      AnyAppends(init, [r], p);
      OnlyOne(r, p);
    }
  }

  lemma {:induction false} OnlyOne(r: Rule, p: Packet)
    ensures AnyMatches([r], p) <==> Matches(r, p)
  {
    hide Matches;
    assert [r][0] == r;
  }

  lemma {:induction false} AnyAppends(a: seq<Rule>, b: seq<Rule>, p: Packet)
    ensures AnyMatches(a + b, p) <==> AnyMatches(a, p) || AnyMatches(b, p)
  {
    hide Matches;
    if AnyMatches(a, p) {
      var i :| 0 <= i < |a| && Matches(a[i], p);
      assert (a + b)[i] == a[i];
    }
    if AnyMatches(b, p) {
      var i :| 0 <= i < |b| && Matches(b[i], p);
      assert (a + b)[|a| + i] == b[i];
    }
  }

  lemma {:induction false} RowMeans(r: Rule, alts: seq<Match>, row: seq<Rule>, p: Packet)
    requires AllSound(alts) && !r.promiscuous && |row| == |alts|
    requires forall i {:trigger alts[i]} :: 0 <= i < |alts| ==> Free(r, alts[i].kind) && row[i] == Set(r, alts[i])
    ensures AnyMatches(row, p) <==> Matches(r, p) && Some(alts, p)
  {
    hide Matches, Holds, Set, Free, Sound;
    forall i | 0 <= i < |alts|
      ensures Matches(row[i], p) <==> Matches(r, p) && Holds(alts[i], p)
    {
      SetAdds(r, alts[i], p);
    }
    if Matches(r, p) && Some(alts, p) {
      var i :| 0 <= i < |alts| && Holds(alts[i], p);
      assert Matches(row[i], p);
    }
    if AnyMatches(row, p) {
      var i :| 0 <= i < |row| && Matches(row[i], p);
      assert Holds(alts[i], p);
    }
  }

  lemma {:induction false} CrossKeeps(rs: seq<Rule>, alts: seq<Match>, k: Kind, later: seq<Kind>)
    requires Plain(rs) && forall i {:trigger alts[i]} :: 0 <= i < |alts| ==> alts[i].kind == k
    requires Open(rs, later) && forall j {:trigger later[j]} :: 0 <= j < |later| ==> later[j] != k
    ensures Open(Cross(rs, |alts|, Chooser(alts)), later) && Plain(Cross(rs, |alts|, Chooser(alts)))
    decreases |rs|
  {
    hide Free, Set;
    if rs != [] {
      var init, r := rs[..|rs| - 1], rs[|rs| - 1];
      CrossKeeps(init, alts, k, later);
      forall i, j | 0 <= i < |alts| && 0 <= j < |later|
        ensures Free(Set(r, alts[i]), later[j])
      {
        SetKeeps(r, alts[i], later[j]);
      }
      forall i | 0 <= i < |alts|
        ensures !Set(r, alts[i]).promiscuous
      {
        StaysPlain(r, alts[i]);
      }
    }
  }

  lemma {:induction false} StaysPlain(r: Rule, m: Match)
    ensures Set(r, m).promiscuous == r.promiscuous
  {
  }

  // ------------------------------------------------------------ ports and protocols

  /** A port of the protocol that goes with it, where one does. */
  predicate HoldsStrictly(m: Match, p: Packet) {
    Holds(m, p) && (PortKind(m.kind) && m.proto != 0 ==> p.proto == Present(m.proto))
  }

  ghost predicate SomeStrictly(ms: seq<Match>, p: Packet) {
    exists i {:trigger ms[i]} :: 0 <= i < |ms| && HoldsStrictly(ms[i], p)
  }

  ghost predicate SatisfiesStrictly(f: Filter, p: Packet) {
    f.promiscuous ||
    forall k {:trigger OfKind(f.matches, k)} :: OfKind(f.matches, k) != [] ==> SomeStrictly(OfKind(f.matches, k), p)
  }

  /**
   A protocol is asked for on its own, or each port of a protocol is also asked for
   whatever the protocol.
   */
  ghost predicate Qualified(ms: seq<Match>) {
    OfKind(ms, IpProto) != [] ||
    forall i {:trigger ms[i]} :: 0 <= i < |ms| && PortKind(ms[i].kind) && ms[i].proto != 0 ==> AnyProto(ms, ms[i])
  }

  ghost predicate AnyProto(ms: seq<Match>, m: Match) {
    exists j {:trigger ms[j]} :: 0 <= j < |ms| && ms[j].kind == m.kind && ms[j].port == m.port && ms[j].proto == 0
  }

  /** The rules, which name a port and a protocol apart, mean ports of protocols exactly where a filter is qualified. */
  lemma {:induction false} PortsOfProtocols(f: Filter)
    requires Consistent(f)
    ensures (forall p {:trigger Satisfies(f, p)} :: Satisfies(f, p) <==> SatisfiesStrictly(f, p)) <==>
            Qualified(f.matches)
  {
    if Qualified(f.matches) {
      forall p
        ensures Satisfies(f, p) <==> SatisfiesStrictly(f, p)
      {
        StrictWhenQualified(f, p);
      }
    } else {
      var p := Wider(f);
      assert Satisfies(f, p) && !SatisfiesStrictly(f, p);
    }
  }

  lemma {:induction false} StrictWhenQualified(f: Filter, p: Packet)
    requires Consistent(f) && Qualified(f.matches)
    ensures Satisfies(f, p) <==> SatisfiesStrictly(f, p)
  {
    if Satisfies(f, p) && !f.promiscuous {
      forall k | OfKind(f.matches, k) != []
        ensures SomeStrictly(OfKind(f.matches, k), p)
      {
        assert Meets(f.matches, k, p);
        var i :| 0 <= i < |OfKind(f.matches, k)| && Holds(OfKind(f.matches, k)[i], p);
        StrictToo(f, k, i, p);
      }
    }
    if SatisfiesStrictly(f, p) && !f.promiscuous {
      forall k
        ensures Meets(f.matches, k, p)
      {
        if OfKind(f.matches, k) != [] {
          var i :| 0 <= i < |OfKind(f.matches, k)| && HoldsStrictly(OfKind(f.matches, k)[i], p);
        }
      }
    }
  }

  lemma {:induction false} StrictToo(f: Filter, k: Kind, i: nat, p: Packet)
    requires Consistent(f) && Qualified(f.matches) && !f.promiscuous && Satisfies(f, p)
    requires i < |OfKind(f.matches, k)| && Holds(OfKind(f.matches, k)[i], p)
    ensures SomeStrictly(OfKind(f.matches, k), p)
  {
    hide OfKind;
    var ms, alts := f.matches, OfKind(f.matches, k);
    var m := alts[i];
    var a :| 0 <= a < |ms| && ms[a] == m;
    if PortKind(k) && m.proto != 0 {
      if OfKind(ms, IpProto) != [] {
        assert Meets(ms, IpProto, p);
        var b :| 0 <= b < |OfKind(ms, IpProto)| && Holds(OfKind(ms, IpProto)[b], p);
        var c :| 0 <= c < |ms| && ms[c] == OfKind(ms, IpProto)[b];
        assert Names(ms[a]) && Names(ms[c]);
        assert HoldsStrictly(alts[i], p);
      } else {
        assert AnyProto(ms, ms[a]);
        var j :| 0 <= j < |ms| && ms[j].kind == k && ms[j].port == m.port && ms[j].proto == 0;
        var d :| 0 <= d < |alts| && alts[d] == ms[j];
        assert HoldsStrictly(alts[d], p);
      }
    } else {
      assert HoldsStrictly(alts[i], p);
    }
  }

  /** A packet that meets the first alternative of every kind but the protocol, which it has none of. */
  function Sample(ms: seq<Match>): Packet {
    var mac, vlan, ether := OfKind(ms, DstMac), OfKind(ms, Vlan), OfKind(ms, EtherType);
    Packet(if mac == [] then [] else mac[0].mac,
           if vlan == [] then Absent else Present(vlan[0].vlan),
           if ether == [] then 0 else ether[0].etherType,
           Absent, Address(OfKind(ms, SrcIp)), Address(OfKind(ms, DstIp)), Port(OfKind(ms, SrcPort)),
              Port(OfKind(ms, DstPort)))
  }

  function Address(alts: seq<Match>): Field<seq<bool>> {
    if alts == [] || !alts[0].prefix.IsValid() then Absent else Present(alts[0].prefix.addr)
  }

  function Port(alts: seq<Match>): Field<u16> {
    if alts == [] then Absent else Present(alts[0].port)
  }

  lemma {:induction false} SampleMeets(ms: seq<Match>, k: Kind)
    requires AllSound(ms) && OfKind(ms, IpProto) == []
    ensures Meets(ms, k, Sample(ms))
  {
    if OfKind(ms, k) != [] {
      var m := OfKind(ms, k)[0];
      var i :| 0 <= i < |ms| && ms[i] == m;
      assert Sound(ms[i]);
      FirstHolds(ms, k);
    }
  }

  lemma {:induction false} FirstHolds(ms: seq<Match>, k: Kind)
    requires OfKind(ms, k) != [] && OfKind(ms, IpProto) == [] && Sound(OfKind(ms, k)[0])
    ensures Holds(OfKind(ms, k)[0], Sample(ms))
  {
    hide OfKind;
    assert OfKind(ms, k)[0].kind == k;
  }

  /** A filter that is not qualified lets packets in that no alternative of theirs asked for. */
  lemma {:induction false} Wider(f: Filter) returns (p: Packet)
    requires Consistent(f) && !Qualified(f.matches)
    ensures Satisfies(f, p) && !SatisfiesStrictly(f, p)
  {
    hide OfKind, Meets, Holds, SomeStrictly;
    var ms := f.matches;
    var i :| 0 <= i < |ms| && PortKind(ms[i].kind) && ms[i].proto != 0 && !AnyProto(ms, ms[i]);
    var m, s := ms[i], Sample(ms);
    p := if m.kind == SrcPort then s.(srcPort := Present(m.port)) else s.(dstPort := Present(m.port));
    forall k
      ensures Meets(ms, k, p)
    {
      SampleMeets(ms, k);
      AtPort(ms, k, m, p);
    }
    NoneStrictly(ms, i, p);
  }

  lemma {:induction false} NoneStrictly(ms: seq<Match>, i: nat, p: Packet)
    requires i < |ms| && PortKind(ms[i].kind) && ms[i].proto != 0 && !AnyProto(ms, ms[i]) && p.proto == Absent
    requires (if ms[i].kind == SrcPort then p.srcPort else p.dstPort) == Present(ms[i].port)
    ensures OfKind(ms, ms[i].kind) != [] && !SomeStrictly(OfKind(ms, ms[i].kind), p)
  {
    hide OfKind;
    var alts := OfKind(ms, ms[i].kind);
    assert ms[i] in alts;
    forall j | 0 <= j < |alts|
      ensures !HoldsStrictly(alts[j], p)
    {
      var a :| 0 <= a < |ms| && ms[a] == alts[j];
    }
  }

  lemma {:induction false} AtPort(ms: seq<Match>, k: Kind, m: Match, p: Packet)
    requires m in ms && PortKind(m.kind) && Meets(ms, k, Sample(ms))
    requires p == if m.kind == SrcPort then Sample(ms).(srcPort := Present(m.port)) else Sample(ms).(dstPort :=
             Present(m.port))
    ensures Meets(ms, k, p)
  {
    var alts := OfKind(ms, k);
    if alts != [] {
      if k == m.kind {
        var a :| 0 <= a < |ms| && ms[a] == m;
        var j :| 0 <= j < |alts| && alts[j] == m;
        assert Holds(alts[j], p);
      } else {
        var j :| 0 <= j < |alts| && Holds(alts[j], Sample(ms));
        assert Holds(alts[j], p);
      }
    }
  }

  // ------------------------------------------------------------- constructors

  /** One call of a constructor. */
  datatype Call =
    | ToMac(mac: bytes) | OnVlan(id: u16) | OfEtherType(t: u16) | OfProto(proto: u8)
    | FromIp(prefix: Prefix) | ToIp(prefix: Prefix)
    | FromPort(proto: u8, port: u16) | ToPort(proto: u8, port: u16)

  const NONE := Match(Unknown(0), [], 0, 0, 0, 0, NoPrefix)

  function MatchIpProto(p: u8): Match { NONE.(kind := IpProto, proto := p) }

  /** The conditions a constructor makes: a port comes with its protocol. */
  function Made(c: Call): seq<Match> {
    match c
    case ToMac(mac) => [NONE.(kind := DstMac, mac := mac)]
    case OnVlan(id) => [NONE.(kind := Vlan, vlan := id)]
    case OfEtherType(t) => [NONE.(kind := EtherType, etherType := t)]
    case OfProto(p) => [MatchIpProto(p)]
    case FromIp(prefix) => [NONE.(kind := SrcIp, prefix := prefix)]
    case ToIp(prefix) => [NONE.(kind := DstIp, prefix := prefix)]
    case FromPort(p, port) => [MatchIpProto(p), NONE.(kind := SrcPort, proto := p, port := port)]
    case ToPort(p, port) => [MatchIpProto(p), NONE.(kind := DstPort, proto := p, port := port)]
  }

  function Built(cs: seq<Call>): seq<Match> {
    if cs == [] then [] else Built(cs[..|cs| - 1]) + Made(cs[|cs| - 1])
  }

  /** What a call speaks of. */
  predicate About(c: Call, k: Kind) {
    match c
    case ToMac(_) => k == DstMac
    case OnVlan(_) => k == Vlan
    case OfEtherType(_) => k == EtherType
    case OfProto(_) => k == IpProto
    case FromIp(_) => k == SrcIp
    case ToIp(_) => k == DstIp
    case FromPort(_, _) => k == IpProto || k == SrcPort
    case ToPort(_, _) => k == IpProto || k == DstPort
  }

  /** The packet is in that respect what the call asked for. */
  predicate Asks(c: Call, k: Kind, p: Packet) {
    match c
    case ToMac(mac) => p.mac == mac
    case OnVlan(id) => p.vlan == Present(id)
    case OfEtherType(t) => p.etherType == t
    case OfProto(proto) => p.proto == Present(proto)
    case FromIp(prefix) => p.src.Present? && prefix.Contains(p.src.value)
    case ToIp(prefix) => p.dst.Present? && prefix.Contains(p.dst.value)
    case FromPort(proto, port) => if k == IpProto then p.proto == Present(proto) else p.srcPort == Present(port)
    case ToPort(proto, port) => if k == IpProto then p.proto == Present(proto) else p.dstPort == Present(port)
  }

  ghost predicate Speaks(cs: seq<Call>, k: Kind) { exists i {:trigger cs[i]} :: 0 <= i < |cs| && About(cs[i], k) }

  ghost predicate Asked(cs: seq<Call>, k: Kind, p: Packet) {
    exists i {:trigger cs[i]} :: 0 <= i < |cs| && About(cs[i], k) && Asks(cs[i], k, p)
  }

  /** The packets a list of calls is for: in every respect one of them speaks of, what one of them asked for. */
  ghost predicate Wanted(cs: seq<Call>, p: Packet) {
    forall k {:trigger Speaks(cs, k)} :: Speaks(cs, k) ==> Asked(cs, k, p)
  }

  ghost predicate Has(ms: seq<Match>, k: Kind) { exists i {:trigger ms[i]} :: 0 <= i < |ms| && ms[i].kind == k }

  ghost predicate HasMet(ms: seq<Match>, k: Kind, p: Packet) {
    exists i {:trigger ms[i]} :: 0 <= i < |ms| && ms[i].kind == k && Holds(ms[i], p)
  }

  lemma {:induction false} MadeHas(c: Call, k: Kind, p: Packet)
    ensures Has(Made(c), k) <==> About(c, k)
    ensures HasMet(Made(c), k, p) <==> About(c, k) && Asks(c, k, p)
  {
    var ms := Made(c);
    assert ms[0].kind == k && Holds(ms[0], p) ==> HasMet(ms, k, p);
    assert |ms| == 2 ==> (ms[1].kind == k && Holds(ms[1], p) ==> HasMet(ms, k, p));
    assert ms[0].kind == k ==> Has(ms, k);
    assert |ms| == 2 && ms[1].kind == k ==> Has(ms, k);
  }

  lemma {:induction false} HasJoin(a: seq<Match>, b: seq<Match>, k: Kind, p: Packet)
    ensures Has(a + b, k) <==> Has(a, k) || Has(b, k)
    ensures HasMet(a + b, k, p) <==> HasMet(a, k, p) || HasMet(b, k, p)
  {
    hide Holds;
    forall i | 0 <= i < |a|
      ensures (a + b)[i] == a[i]
    {
    }
    forall i | 0 <= i < |b|
      ensures (a + b)[|a| + i] == b[i]
    {
    }
  }

  lemma {:induction false} CallsJoin(cs: seq<Call>, c: Call, k: Kind, p: Packet)
    ensures Speaks(cs + [c], k) <==> Speaks(cs, k) || About(c, k)
    ensures Asked(cs + [c], k, p) <==> Asked(cs, k, p) || (About(c, k) && Asks(c, k, p))
  {
    hide About, Asks;
    var all := cs + [c];
    assert all[|cs|] == c;
    forall i | 0 <= i < |cs|
      ensures all[i] == cs[i]
    {
    }
  }

  lemma {:induction false} BuiltHas(cs: seq<Call>, k: Kind, p: Packet)
    ensures Has(Built(cs), k) <==> Speaks(cs, k)
    ensures HasMet(Built(cs), k, p) <==> Asked(cs, k, p)
    decreases |cs|
  {
    hide Has, HasMet, Speaks, Asked, Made, About, Asks;
    if cs == [] {
      NoneHave(k, p);
    } else {
      var init, c := cs[..|cs| - 1], cs[|cs| - 1];
      assert cs == init + [c];
      BuiltHas(init, k, p);
      MadeHas(c, k, p);
      HasJoin(Built(init), Made(c), k, p);
      CallsJoin(init, c, k, p);
    }
  }

  lemma {:induction false} NoneHave(k: Kind, p: Packet)
    ensures !Has([], k) && !HasMet([], k, p) && !Speaks([], k) && !Asked([], k, p)
  {
  }

  lemma {:induction false} KindHas(ms: seq<Match>, k: Kind, p: Packet)
    ensures OfKind(ms, k) != [] <==> Has(ms, k)
    ensures Some(OfKind(ms, k), p) <==> HasMet(ms, k, p)
  {
    hide Holds, OfKind;
    var r := OfKind(ms, k);
    if r != [] {
      assert r[0].kind == k && r[0] in ms;
    }
    if Some(r, p) {
      var i :| 0 <= i < |r| && Holds(r[i], p);
      var j :| 0 <= j < |ms| && ms[j] == r[i];
    }
    if HasMet(ms, k, p) {
      var j :| 0 <= j < |ms| && ms[j].kind == k && Holds(ms[j], p);
      assert ms[j] in r;
    }
  }

  /** A filter built with the constructors is for the packets they say. */
  lemma {:induction false} BuiltMeans(cs: seq<Call>, p: Packet)
    ensures Satisfies(Filter(Built(cs), false), p) <==> Wanted(cs, p)
  {
    hide OfKind, Has, HasMet, Speaks, Asked, Some;
    forall k
      ensures Meets(Built(cs), k, p) <==> (Speaks(cs, k) ==> Asked(cs, k, p))
    {
      BuiltHas(cs, k, p);
      KindHas(Built(cs), k, p);
    }
  }

  /** A filter built with the constructors is qualified. */
  lemma {:induction false} BuiltQualified(cs: seq<Call>)
    ensures Qualified(Built(cs))
  {
    if AnyPort(Built(cs)) {
      PortBringsProto(cs);
    }
  }

  lemma {:induction false} PortBringsProto(cs: seq<Call>)
    requires AnyPort(Built(cs))
    ensures OfKind(Built(cs), IpProto) != []
  {
    hide OfKind;
    var init, c := cs[..|cs| - 1], cs[|cs| - 1];
    var ms := Built(cs);
    var i :| 0 <= i < |ms| && PortKind(ms[i].kind);
    if i < |Built(init)| {
      assert Built(init)[i] == ms[i];
      PortBringsProto(init);
      StillThere(Built(init), ms);
    } else {
      assert ms[|Built(init)|] == Made(c)[0];
    }
  }

  lemma {:induction false} StillThere(a: seq<Match>, ms: seq<Match>)
    requires a <= ms && OfKind(a, IpProto) != []
    ensures OfKind(ms, IpProto) != []
  {
    hide OfKind;
    var m := OfKind(a, IpProto)[0];
    var j :| 0 <= j < |a| && a[j] == m;
    assert ms[j] == m;
  }

  /** One port match made by hand, without the protocol match that goes with it. */
  lemma {:induction false} HandMade(port: u16)
    ensures var f := Filter([NONE.(kind := DstPort, proto := 6, port := port)], false);
            Consistent(f) && !Qualified(f.matches)
  {
    var m := NONE.(kind := DstPort, proto := 6, port := port);
    assert [m][0] == m && [m][..0] == [];
    assert Names([m][0]);
    assert OfKind([m], IpProto) == OfKind([], IpProto) == [];
  }
}
