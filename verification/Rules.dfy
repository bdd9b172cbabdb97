/** The rule file: initialising the rules in place, and finding the first rule that matches a connection. */
module Rules {
  import opened Wrappers
  import opened GoStrings
  import opened Addresses

  datatype RuleType = UserConnHandler | ProxyTCP | Drop

  datatype InitError = UnknownType(name: string) | InvalidTarget(error: TargetError) | InvalidFilter(text: string)

  /** The addresses of a connection, as the rules see them. */
  datatype Packet = Packet(network: string, srcIP: string, srcPort: nat, dstIP: string, dstPort: nat)

  /** The packet filters of libpcap: which expressions compile, which packets can be forged, which are accepted. */
  datatype Pcap = Pcap(compiles: string -> bool, forges: Packet -> bool, accepts: (string, Packet) -> bool)

  /** What Rule.init makes of the fields read from the file. */
  function Problem(kind: string, target: string, filter: string, pcap: Pcap): Option<InitError> {
    if kind !in {"conn_handler", "proxy_tcp", "drop"} then Some(UnknownType(kind))
    else if kind == "proxy_tcp" && ParseProxyTarget(target).Refused? then
      Some(InvalidTarget(ParseProxyTarget(target).error))
    else if |filter| > 0 && !pcap.compiles(filter) then Some(InvalidFilter(filter))
    else None
  }

  class Rule {
    const filter: string
    const kind: string
    const target: string
    var isInit: bool
    var ruleType: RuleType
    var proxyTarget: Option<ProxyTarget>
    var index: nat
    var matcher: Option<string>

    constructor (filter: string, kind: string, target: string)
      ensures this.filter == filter && this.kind == kind && this.target == target
      ensures !isInit && proxyTarget == None && matcher == None
    {
      this.filter, this.kind, this.target := filter, kind, target;
      isInit, ruleType, proxyTarget, index, matcher := false, UserConnHandler, None, 0, None;
    }

    /** What initialisation promises those who dispatch on the rule. */
    ghost predicate Ready(pcap: Pcap)
      reads this
    {
      && isInit && Problem(kind, target, filter, pcap) == None
      && ruleType == (if kind == "proxy_tcp" then ProxyTCP else if kind == "drop" then Drop else UserConnHandler)
      && (kind == "proxy_tcp" <==> proxyTarget.Some?)
      && (proxyTarget.Some? ==> ParseProxyTarget(target) == Target(proxyTarget.value) && Dialable(proxyTarget.value))
      && matcher == if filter == "" then None else Some(filter)
    }

    method Init(idx: nat, pcap: Pcap) returns (err: Option<InitError>)
      requires isInit ==> Ready(pcap)
      requires !isInit ==> proxyTarget == None && matcher == None
      modifies this
      ensures old(isInit) ==> err == None && index == old(index)
      ensures !old(isInit) ==> err == Problem(kind, target, filter, pcap)
      ensures err == None ==> Ready(pcap) && (!old(isInit) ==> index == idx)
      ensures err != None ==> !isInit
      ensures !old(isInit) ==> (err == Some(UnknownType(kind)) <==> kind !in {"conn_handler", "proxy_tcp", "drop"})
      ensures !old(isInit) ==> (err == None <==>
        && kind in {"conn_handler", "proxy_tcp", "drop"} && (kind == "proxy_tcp" ==> ParseProxyTarget(target).Target?)
        && (filter != "" ==> pcap.compiles(filter)))
    {
      if isInit { return None; }
      if kind == "conn_handler" {
        ruleType := UserConnHandler;
      } else if kind == "proxy_tcp" {
        ruleType := ProxyTCP;
      } else if kind == "drop" {
        ruleType := Drop;
      } else {
        return Some(UnknownType(kind));
      }
      if ruleType == ProxyTCP {
        match ParseProxyTarget(target) {
          case Refused(error) => return Some(InvalidTarget(error));
          case Target(t) =>
            AcceptedIsDialable(target);
            proxyTarget := Some(t);
        }
      }
      if |filter| > 0 {
        if !pcap.compiles(filter) { return Some(InvalidFilter(filter)); }
        matcher := Some(filter);
      }
      index, isInit, err := idx, true, None;
    }
  }

  ghost predicate AllReady(rules: seq<Rule>, pcap: Pcap)
    reads rules
  {
    forall r :: r in rules ==> r.Ready(pcap)
  }

  /** The rule at i is the first that cannot be initialised, and err is why. */
  ghost predicate FailsFirst(rules: seq<Rule>, pcap: Pcap, i: nat, err: Option<InitError>) {
    && i < |rules| && err != None && err == Problem(rules[i].kind, rules[i].target, rules[i].filter, pcap)
    && forall j :: 0 <= j < i ==> Problem(rules[j].kind, rules[j].target, rules[j].filter, pcap) == None
  }

  /**
   * A rule set is accepted exactly when every rule is, and otherwise the error is that of the first rule which is
   * not; an accepted rule knows the place where it first stands.
   */
  method InitRules(rules: seq<Rule>, pcap: Pcap) returns (err: Option<InitError>)
    requires forall r :: r in rules ==> !r.isInit && r.proxyTarget == None && r.matcher == None
    modifies rules
    ensures err == None <==> forall r :: r in rules ==> Problem(r.kind, r.target, r.filter, pcap) == None
    ensures err == None ==> AllReady(rules, pcap)
    ensures err == None ==> forall i :: 0 <= i < |rules| ==> rules[i].index <= i && rules[rules[i].index] == rules[i]
    ensures err != None ==> exists i :: FailsFirst(rules, pcap, i, err)
  {
    for i := 0 to |rules|
      invariant forall r :: r in rules ==> if r.isInit then r.index < i else r.proxyTarget == None && r.matcher == None
      invariant forall r :: r in rules && r.isInit ==> r.Ready(pcap) && rules[r.index] == r
      invariant forall j :: 0 <= j < i ==> rules[j].isInit && rules[j].index <= j
    {
      err := rules[i].Init(i, pcap);
      if err != None {
        assert FailsFirst(rules, pcap, i, err);
        return;
      }
    }
    err := None;
  }

  /** A rule without a filter matches nothing. */
  ghost predicate Accepts(r: Rule, pcap: Pcap, packet: Packet)
    reads r
  {
    r.matcher.Some? && pcap.accepts(r.matcher.value, packet)
  }

  /** An initialised rule accepts what the filter in its file accepts, and nothing without one. */
  lemma AcceptsItsFilter(r: Rule, pcap: Pcap, packet: Packet)
    requires r.Ready(pcap)
    ensures Accepts(r, pcap, packet) <==> r.filter != "" && pcap.accepts(r.filter, packet)
  {
  }

  /** The rule at i is the first that accepts the packet. */
  ghost predicate First(rules: seq<Rule>, pcap: Pcap, packet: Packet, i: int)
    requires 0 <= i < |rules|
    reads rules
  {
    Accepts(rules[i], pcap, packet) && forall j :: 0 <= j < i ==> !Accepts(rules[j], pcap, packet)
  }

  /** The first rule that accepts the packet, or null when none does. */
  ghost predicate Routed(rules: seq<Rule>, pcap: Pcap, packet: Packet, rule: Rule?)
    reads rules
  {
    if rule == null then forall r :: r in rules ==> !Accepts(r, pcap, packet)
    else exists i :: 0 <= i < |rules| && rules[i] == rule && First(rules, pcap, packet, i)
  }

  /** The packet that stands for a connection: ports are cut to sixteen bits. */
  function Forge(network: string, src: string, dst: string): Option<Packet> {
    match (SplitHostPort(src), SplitHostPort(dst))
    case (Pair(srcIP, srcPort), Pair(dstIP, dstPort)) =>
      if Atoi(srcPort).Valid? && Atoi(dstPort).Valid? then
        Some(Packet(network, srcIP, Atoi(srcPort).value % 65536, dstIP, Atoi(dstPort).value % 65536))
      else None
    case _ => None
  }

  /** The two ends of a connection, printed as Go prints them. */
  predicate Between(src: string, dst: string, host: string, port: nat, toHost: string, toPort: nat) {
    && NoBrackets(host) && port <= 65535 && src == JoinHostPort(host, Itoa(port))
    && NoBrackets(toHost) && toPort <= 65535 && dst == JoinHostPort(toHost, Itoa(toPort))
  }

  lemma PrintedSplits(host: string, port: nat)
    requires NoBrackets(host) && port <= 65535
    ensures SplitHostPort(JoinHostPort(host, Itoa(port))) == Pair(host, Itoa(port)) && Atoi(Itoa(port)) == Valid(port)
  {
    ItoaDigits(port);
    AtoiItoa(port);
    JoinThenSplit(host, Itoa(port));
  }

  /** The packet goes from the client to the address that it connected to. */
  lemma ForgedBetween(network: string, src: string, dst: string, host: string, port: nat, toHost: string, toPort: nat)
    requires Between(src, dst, host, port, toHost, toPort)
    ensures Forge(network, src, dst) == Some(Packet(network, host, port, toHost, toPort))
  {
    PrintedSplits(host, port);
    PrintedSplits(toHost, toPort);
  }

  /** Written from a host and a port that is a number. */
  ghost predicate HasPort(s: string) {
    exists host, port :: WrittenFrom(s, host, port) && Atoi(port).Valid?
  }

  lemma HasPortExactly(s: string)
    ensures HasPort(s) <==> SplitHostPort(s).Pair? && Atoi(SplitHostPort(s).port).Valid?
  {
    if SplitHostPort(s).Pair? { SplitsExactly(s, SplitHostPort(s).host, SplitHostPort(s).port); }
    forall host, port | WrittenFrom(s, host, port) ensures SplitHostPort(s) == Pair(host, port) {
      SplitsExactly(s, host, port);
    }
  }

  /** A packet is made exactly when both addresses have a port. */
  lemma ForgesExactly(network: string, src: string, dst: string)
    ensures Forge(network, src, dst).Some? <==> HasPort(src) && HasPort(dst)
  {
    HasPortExactly(src);
    HasPortExactly(dst);
  }

  /** No answer when the packet cannot be forged, and else the first rule that accepts it. */
  ghost predicate Answers(rules: seq<Rule>, pcap: Pcap, packet: Packet, ok: bool, rule: Rule?)
    reads rules
  {
    ok == pcap.forges(packet) && if ok then Routed(rules, pcap, packet, rule) else rule == null
  }

  /** The first rule that accepts the packet. */
  method FirstMatch(rules: seq<Rule>, pcap: Pcap, packet: Packet) returns (rule: Rule?)
    ensures Routed(rules, pcap, packet, rule)
  {
    for i := 0 to |rules|
      invariant forall j :: 0 <= j < i ==> !Accepts(rules[j], pcap, packet)
    {
      if rules[i].matcher != None && pcap.accepts(rules[i].matcher.value, packet) {
        assert First(rules, pcap, packet, i);
        return rules[i];
      }
    }
    return null;
  }

  /** Rules.Match: the first rule in file order whose filter accepts the packet, if one can be made and forged. */
  method Match(rules: seq<Rule>, pcap: Pcap, network: string, src: string, dst: string) returns (ok: bool, rule: Rule?)
    ensures ok ==> HasPort(src) && HasPort(dst)
    ensures match Forge(network, src, dst)
      case None => !ok && rule == null
      case Some(packet) => Answers(rules, pcap, packet, ok, rule)
  {
    var packet := Forge(network, src, dst);
    ForgesExactly(network, src, dst);
    ok, rule := packet != None && pcap.forges(packet.value), null;
    if ok { rule := FirstMatch(rules, pcap, packet.value); }
  }

  /** Between two printed ends that is the packet from the client to the address it connected to. */
  method MatchBetween(rules: seq<Rule>, pcap: Pcap, network: string, host: string, port: nat, toHost: string,
      toPort: nat)
    returns (ok: bool, rule: Rule?)
    requires NoBrackets(host) && port <= 65535 && NoBrackets(toHost) && toPort <= 65535
    ensures Answers(rules, pcap, Packet(network, host, port, toHost, toPort), ok, rule)
  {
    var src, dst := JoinHostPort(host, Itoa(port)), JoinHostPort(toHost, Itoa(toPort));
    ForgedBetween(network, src, dst, host, port, toHost, toPort);
    ok, rule := Match(rules, pcap, network, src, dst);
  }
}
