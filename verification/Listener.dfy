/** From an accepted connection to its handler: the rules, the connection table and the choice by rule type. */
module Listener {
  import opened Wrappers
  import opened GoStrings
  import opened Addresses
  import opened Rules
  import opened Connections

  /** What the loop does with a connection: skips it, drops it for want of a handler, or hands it on. */
  datatype Dispatch = Skipped | Unhandled(name: string) | Handed(name: string, md: Metadata)

  /** What HandleProxyTCP finds in its metadata before it dials. */
  datatype Guard = Refuses | Dials(address: string)

  function ProxyGuard(rule: Rule): Guard
    reads rule
  {
    match rule.proxyTarget
    case None => Refuses
    case Some(t) => if t.dialAddress == "" then Refuses else Dials(t.dialAddress)
  }

  /** What the accept loop and the ticker take turns at. */
  datatype Turn = Accepted(remote: string, local: string, now: int) | Ticked(now: int)

  const FLUSH_AGE: int := 5 * 60

  class Glutton {
    const rules: seq<Rule>
    const pcap: Pcap
    const keyOf: (string, int) -> Option<Key>
    const handlers: set<string>
    const connTable: ConnTable

    constructor (rules: seq<Rule>, pcap: Pcap, keyOf: (string, int) -> Option<Key>, handlers: set<string>)
      requires AllReady(rules, pcap)
      ensures Valid() && this.rules == rules && this.pcap == pcap && this.keyOf == keyOf && this.handlers == handlers
      ensures fresh(connTable) && connTable.table == map[]
    {
      this.rules, this.pcap, this.keyOf, this.handlers := rules, pcap, keyOf, handlers;
      connTable := new ConnTable();
    }

    /** An initialised rule, or one made up for a connection that no rule matches. */
    ghost predicate Known(rule: Rule)
      reads rule
    {
      rule.Ready(pcap) || (rule.kind == "" && rule.proxyTarget == None)
    }

    /** The rules are initialised, and every rule in the table is an initialised one or was made up. */
    ghost predicate Valid()
      reads rules, connTable, set k | k in connTable.table :: connTable.table[k].rule
    {
      AllReady(rules, pcap) && forall k :: k in connTable.table ==> Known(connTable.table[k].rule)
    }

    ghost function KeyOf(remote: string): Option<Key> {
      match SplitHostPort(remote)
      case Pair(host, port) => KeyFor(keyOf, host, port)
      case Bad(_) => None
    }

    /** The target port of a connection, cut to sixteen bits. */
    static ghost function PortOf(local: string): nat {
      match SplitHostPort(local)
      case Pair(_, port) => if Atoi(port).Valid? then Atoi(port).value % 65536 else 0
      case Bad(_) => 0
    }

    /** The event that a connection which is not skipped makes of the table: its rule is registered under its key. */
    ghost predicate Enters(remote: string, local: string, matched: Rule?, e: Event) {
      && e.op.Register? && KeyOf(remote) == Some(e.op.key) && e.op.targetPort == PortOf(local)
      && if matched != null then e.op.rule == matched else e.op.rule.kind == "" && e.op.rule.target == "default"
    }

    /** The key of a client is made from its host and port, and the target port is the port it connected to. */
    lemma EntersBetween(remote: string, local: string, host: string, port: nat, toHost: string, toPort: nat)
      requires Between(remote, local, host, port, toHost, toPort)
      ensures KeyOf(remote) == keyOf(host, port) && PortOf(local) == toPort
      ensures Forge("tcp", remote, local) == Some(Packet("tcp", host, port, toHost, toPort))
    {
      PrintedSplits(host, port);
      PrintedSplits(toHost, toPort);
      ForgedBetween("tcp", remote, local, host, port, toHost, toPort);
    }

    /** To whom a connection goes: by a proxy rule to the proxy, by another to its target, by none to default. */
    ghost predicate GoesTo(matched: Rule?, d: Dispatch) {
      d != Skipped ==>
        && (d.Handed? <==> d.name in handlers)
        && (matched == null ==> d.name == "default")
        && (matched != null ==> d.name == if matched.kind == "proxy_tcp" then "proxy_tcp" else matched.target)
    }

    /** ConnTable.RegisterConn: nothing when an address or a port is malformed. */
    method RegisterConn(remote: string, local: string, rule: Rule, now: int) returns (md: Option<Metadata>)
      requires Valid() && Known(rule)
      modifies connTable
      ensures Valid() && (md == None ==> connTable.table == old(connTable.table))
      ensures md.Some? <==> KeyOf(remote).Some? && SplitHostPort(local).Pair? && Atoi(SplitHostPort(local).port).Valid?
      ensures md.Some? ==> KeyOf(remote).Some? && Known(md.value.rule)
      ensures md.Some? && KeyOf(remote).value in old(connTable.table) ==>
        md.value == old(connTable.table)[KeyOf(remote).value]
      ensures md.Some? && KeyOf(remote).value !in old(connTable.table) ==>
        md.value.rule == rule && md.value.added == now
      ensures md.Some? ==> connTable.table == old(connTable.table)[KeyOf(remote).value := md.value]
      ensures md.Some? ==>
        var e := Event(now, Op.Register(KeyOf(remote).value, rule, PortOf(local)));
        connTable.table == Apply(old(connTable.table), e)
    {
      var src, dst := SplitHostPort(remote), SplitHostPort(local);
      if src.Bad? || dst.Bad? { return None; }
      match Atoi(dst.port) {
        case Valid(port) =>
          ghost var before := connTable.table;
          md := connTable.Register(keyOf, src.host, src.port, port % 65536, rule, now);
          if md.Some? { assert connTable.table == before[KeyOf(remote).value := md.value]; }
          assert PortOf(local) == port % 65536;
        case _ => md := None;
      }
    }

    /** The switch over the rule's type and the call of the handler. */
    method HandOver(rule: Rule, md: Metadata) returns (d: Dispatch)
      ensures d != Skipped && (d.Handed? <==> d.name in handlers) && (d.Handed? ==> d.md == md)
      ensures d.name == if rule.kind == "proxy_tcp" then "proxy_tcp" else rule.target
    {
      var name := if rule.kind == "proxy_tcp" then rule.kind else rule.target;
      d := if name in handlers then Handed(name, md) else Unhandled(name);
    }

    /** A connection that matched a rule, or none and then one made up for it, is registered. */
    method Admit(remote: string, local: string, matched: Rule?, now: int)
      returns (rule: Rule, md: Option<Metadata>, ghost e: Event)
      requires Valid() && (matched != null ==> Known(matched)) && HasPort(remote) && HasPort(local)
      modifies connTable
      ensures Valid() && connTable.table == Apply(old(connTable.table), e) && e.at == now
      ensures (md.Some? <==> KeyOf(remote).Some?) && (md == None ==> e.op == Pass)
      ensures if matched != null then rule == matched else rule.kind == "" && rule.target == "default"
      ensures md.Some? ==> Enters(remote, local, matched, e) && Known(md.value.rule)
      ensures md.Some? ==> connTable.table == old(connTable.table)[KeyOf(remote).value := md.value]
      ensures md.Some? && KeyOf(remote).value in old(connTable.table) ==>
        md.value == old(connTable.table)[KeyOf(remote).value]
      ensures md.Some? && KeyOf(remote).value !in old(connTable.table) && matched != null ==>
        md.value.rule == matched && md.value.added == now
    {
      HasPortExactly(local);
      if matched == null { rule := new Rule("", "", "default"); } else { rule := matched; }
      md := RegisterConn(remote, local, rule, now);
      e := Event(now, if md == None then Pass else Op.Register(KeyOf(remote).value, rule, PortOf(local)));
    }

    /**
     * One turn of the accept loop. The connection goes by the first rule that matches it; its metadata is that
     * rule's when its key is fresh, and an older registration's when it is not. A skipped connection leaves the
     * table alone, and any other is registered, with a handler or without.
     */
    method Accept(remote: string, local: string, now: int) returns (d: Dispatch, matched: Rule?, ghost e: Event)
      requires Valid()
      modifies connTable
      ensures Valid() && connTable.table == Apply(old(connTable.table), e) && e.at == now
      ensures if d == Skipped then e.op == Pass else Enters(remote, local, matched, e)
      ensures d.Handed? ==> KeyOf(remote).value in connTable.table && d.md == connTable.table[KeyOf(remote).value]
      ensures d != Skipped <==>
        Forge("tcp", remote, local).Some? && pcap.forges(Forge("tcp", remote, local).value) && KeyOf(remote).Some?
      ensures d != Skipped ==> Routed(rules, pcap, Forge("tcp", remote, local).value, matched)
      ensures GoesTo(matched, d)
      ensures d.Handed? && KeyOf(remote).value in old(connTable.table) ==>
        d.md == old(connTable.table)[KeyOf(remote).value]
      ensures d.Handed? && KeyOf(remote).value !in old(connTable.table) && matched != null ==>
        d.md.rule == matched && d.md.added == now
      ensures d.Handed? ==> Known(d.md.rule) && connTable.table == old(connTable.table)[KeyOf(remote).value := d.md]
    {
      var ok;
      ok, matched := Match(rules, pcap, "tcp", remote, local);
      d, e := Skipped, Event(now, Pass);
      if !ok { return; }
      var rule, md;
      rule, md, e := Admit(remote, local, matched, now);
      if md.Some? { d := HandOver(rule, md.value); }
    }

    /** The ticker's turn. */
    method Tick(now: int)
      requires Valid()
      modifies connTable
      ensures Valid() && connTable.table == Flushed(old(connTable.table), now - FLUSH_AGE)
    {
      connTable.FlushOlderThan(FLUSH_AGE, now);
    }

    /** What a turn came to, and what it did to the table. */
    ghost predicate Served(turn: Turn, d: Dispatch, matched: Rule?, e: Event)
      reads rules
    {
      match turn
      case Ticked(now) => d == Skipped && e == Event(now, Flush(FLUSH_AGE))
      case Accepted(remote, local, now) =>
        && e.at == now
        && (if d == Skipped then e.op == Pass else Enters(remote, local, matched, e))
        && (d != Skipped ==>
              && Forge("tcp", remote, local).Some? && Routed(rules, pcap, Forge("tcp", remote, local).value, matched)
              && GoesTo(matched, d))
    }

    /**
     * The connection of turn i carries what turn j registered: the first to match its key since the key was last
     * missing, with the rule that j went by, and not flushed since.
     */
    ghost predicate Carries(turns: seq<Turn>, matched: seq<Rule?>, es: seq<Event>, i: nat, j: nat, md: Metadata)
      requires |turns| == |matched| == |es| && j <= i < |turns|
    {
      && turns[i].Accepted? && turns[j].Accepted? && KeyOf(turns[j].remote) == KeyOf(turns[i].remote)
      && KeyOf(turns[i].remote).Some? && Origin(es[..i + 1], j, KeyOf(turns[i].remote).value, md)
      && md.added == turns[j].now && (matched[j] != null ==> md.rule == matched[j])
    }

    /** The table has this metadata for the connection's key. */
    ghost predicate Holds(turn: Turn, table: Table, md: Metadata) {
      turn.Accepted? && KeyOf(turn.remote).Some?
      && KeyOf(turn.remote).value in table && table[KeyOf(turn.remote).value] == md
    }

    ghost predicate ServedAt(turns: seq<Turn>, ds: seq<Dispatch>, matched: seq<Rule?>, es: seq<Event>, k: nat)
      requires k < |ds| == |matched| == |es| <= |turns|
      reads rules
    {
      && Served(turns[k], ds[k], matched[k], es[k])
      && (ds[k].Handed? ==> Holds(turns[k], Run(map[], es[..k + 1]), ds[k].md))
    }

    ghost predicate AllServed(turns: seq<Turn>, ds: seq<Dispatch>, matched: seq<Rule?>, es: seq<Event>)
      requires |ds| == |matched| == |es| <= |turns|
      reads rules
    {
      forall k :: 0 <= k < |ds| ==> ServedAt(turns, ds, matched, es, k)
    }

    lemma StillServed(turns: seq<Turn>, ds: seq<Dispatch>, matched: seq<Rule?>, es: seq<Event>, d: Dispatch,
        rule: Rule?, e: Event, k: nat)
      requires |ds| == |matched| == |es| < |turns| && k < |ds| && ServedAt(turns, ds, matched, es, k)
      ensures ServedAt(turns, ds + [d], matched + [rule], es + [e], k)
    {
      assert (es + [e])[..k + 1] == es[..k + 1];
    }

    lemma NewServed(turns: seq<Turn>, ds: seq<Dispatch>, matched: seq<Rule?>, es: seq<Event>, d: Dispatch,
        rule: Rule?, e: Event)
      requires |ds| == |matched| == |es| < |turns| && Served(turns[|ds|], d, rule, e)
      requires d.Handed? ==> Holds(turns[|ds|], Run(map[], es + [e]), d.md)
      ensures ServedAt(turns, ds + [d], matched + [rule], es + [e], |ds|)
    {
      var n := |ds|;
      assert (ds + [d])[n] == d && (matched + [rule])[n] == rule && (es + [e])[n] == e;
      assert (es + [e])[..n + 1] == es + [e];
    }

    lemma OneMoreServed(turns: seq<Turn>, ds: seq<Dispatch>, matched: seq<Rule?>, es: seq<Event>, d: Dispatch,
        rule: Rule?, e: Event)
      requires |ds| == |matched| == |es| < |turns| && AllServed(turns, ds, matched, es)
      requires Served(turns[|ds|], d, rule, e)
      requires d.Handed? ==> Holds(turns[|ds|], Apply(Run(map[], es), e), d.md)
      ensures Run(map[], es + [e]) == Apply(Run(map[], es), e)
      ensures AllServed(turns, ds + [d], matched + [rule], es + [e])
    {
      RunAppend(map[], es, e);
      NewServed(turns, ds, matched, es, d, rule, e);
      forall k | 0 <= k < |ds| ensures ServedAt(turns, ds + [d], matched + [rule], es + [e], k) {
        StillServed(turns, ds, matched, es, d, rule, e, k);
      }
    }

    lemma FirstToMatch(turns: seq<Turn>, ds: seq<Dispatch>, matched: seq<Rule?>, es: seq<Event>, i: nat)
      returns (j: nat)
      requires |turns| == |ds| == |matched| == |es| && i < |turns| && ds[i].Handed?
      requires AllServed(turns, ds, matched, es)
      ensures j <= i && Carries(turns, matched, es, i, j, ds[i].md)
    {
      assert ServedAt(turns, ds, matched, es, i);
      j := HasOrigin(es[..i + 1], KeyOf(turns[i].remote).value);
      assert es[..i + 1][j] == es[j] && ServedAt(turns, ds, matched, es, j);
    }

    method TakeTurn(turn: Turn) returns (d: Dispatch, matched: Rule?, ghost e: Event)
      requires Valid()
      modifies connTable
      ensures Valid() && connTable.table == Apply(old(connTable.table), e) && Served(turn, d, matched, e)
      ensures d.Handed? ==> Holds(turn, connTable.table, d.md)
    {
      match turn
      case Ticked(now) =>
        Tick(now);
        d, matched, e := Skipped, null, Event(now, Flush(FLUSH_AGE));
      case Accepted(remote, local, now) =>
        d, matched, e := Accept(remote, local, now);
    }

    /**
     * Any sequence of connections and ticks, from an empty table: every connection that is handed on carries the
     * rule that first matched its key and has not been flushed.
     */
    method Serve(turns: seq<Turn>) returns (ds: seq<Dispatch>, ghost matched: seq<Rule?>, ghost es: seq<Event>)
      requires Valid() && connTable.table == map[]
      modifies connTable
      ensures Valid() && |ds| == |matched| == |es| == |turns|
      ensures connTable.table == Run(map[], es) && Ages(es, FLUSH_AGE)
      ensures AllServed(turns, ds, matched, es)
      ensures forall i :: 0 <= i < |turns| && ds[i].Handed? ==>
        exists j :: 0 <= j <= i && Carries(turns, matched, es, i, j, ds[i].md)
    {
      ds, matched, es := [], [], [];
      for i := 0 to |turns|
        invariant Valid() && |ds| == |matched| == |es| == i
        invariant connTable.table == Run(map[], es)
        invariant AllServed(turns, ds, matched, es)
      {
        var d, rule;
        ghost var e;
        d, rule, e := TakeTurn(turns[i]);
        OneMoreServed(turns, ds, matched, es, d, rule, e);
        ds, matched, es := ds + [d], matched + [rule], es + [e];
      }
      forall k | 0 <= k < |es| ensures es[k].op.Flush? ==> es[k].op.age == FLUSH_AGE {
        assert ServedAt(turns, ds, matched, es, k);
      }
      forall i | 0 <= i < |turns| && ds[i].Handed?
        ensures exists j :: 0 <= j <= i && Carries(turns, matched, es, i, j, ds[i].md)
      {
        var j := FirstToMatch(turns, ds, matched, es, i);
      }
    }
  }

  /**
   * The guards of the proxy handler pass exactly when the metadata is of a proxy rule, and then the address that is
   * dialled reads back as a host and a port from 1 to 65535.
   */
  lemma GuardsPassExactly(g: Glutton, rule: Rule)
    requires g.Known(rule)
    ensures ProxyGuard(rule).Dials? <==> rule.kind == "proxy_tcp"
    ensures ProxyGuard(rule).Dials? ==> rule.proxyTarget.Some? && Dialable(rule.proxyTarget.value)
    ensures ProxyGuard(rule).Dials? ==> ProxyGuard(rule).address == rule.proxyTarget.value.dialAddress
    ensures ProxyGuard(rule).Dials? ==> ParseProxyTarget(rule.target) == Target(rule.proxyTarget.value)
  {
  }

  /**
   * A connection between two printed ends: it is skipped unless its packet can be forged and its client has a key, it
   * goes by the first rule that accepts the packet from the client to the address it connected to, and it is
   * registered under the client's key with the port it connected to.
   */
  method AcceptBetween(g: Glutton, host: string, port: nat, toHost: string, toPort: nat, now: int)
    returns (d: Dispatch, matched: Rule?, ghost e: Event)
    requires g.Valid() && NoBrackets(host) && port <= 65535 && NoBrackets(toHost) && toPort <= 65535
    modifies g.connTable
    ensures g.Valid() && g.GoesTo(matched, d)
    ensures g.connTable.table == Apply(old(g.connTable.table), e)
    ensures var packet := Packet("tcp", host, port, toHost, toPort);
      && (d != Skipped <==> g.pcap.forges(packet) && g.keyOf(host, port).Some?)
      && (d != Skipped ==> Routed(g.rules, g.pcap, packet, matched))
      && (d != Skipped ==> e.op.Register? && Some(e.op.key) == g.keyOf(host, port) && e.op.targetPort == toPort)
  {
    var remote, local := JoinHostPort(host, Itoa(port)), JoinHostPort(toHost, Itoa(toPort));
    g.EntersBetween(remote, local, host, port, toHost, toPort);
    d, matched, e := g.Accept(remote, local, now);
  }

  /**
   * With a tick every five minutes at most, the registration that a connection carries is no older than ten; and an
   * entry is flushed by the first tick that finds it older than five.
   */
  lemma CarriedIsRecent(g: Glutton, turns: seq<Turn>, matched: seq<Rule?>, es: seq<Event>, start: int, i: nat, j: nat,
      md: Metadata)
    requires |turns| == |matched| == |es| && j <= i < |turns| && g.Carries(turns, matched, es, i, j, md)
    requires Ages(es, FLUSH_AGE) && Timed(es, start) && Punctual(es, start, 300)
    ensures es[i].at - 600 <= md.added <= es[i].at
    ensures forall m :: j < m <= i && es[m].op.Flush? ==> es[m].at - 300 <= md.added
  {
    OriginIsRecent(es, FLUSH_AGE, 300, start, i, j, g.KeyOf(turns[i].remote).value, md);
    forall m | j < m <= i && es[m].op.Flush? ensures es[m].at - 300 <= md.added {
      assert es[..i + 1][m] == es[m] && es[m] in es;
    }
  }

  /** With this rule in its metadata, the proxy dials the target that the other has in the rule file. */
  ghost predicate DialsTargetOf(rule: Rule, other: Rule)
    reads rule
  {
    && ParseProxyTarget(other.target).Target?
    && ProxyGuard(rule) == Dials(ParseProxyTarget(other.target).target.dialAddress)
  }

  /**
   * A connection that a proxy rule routes: with a fresh key it dials that rule's target, and with a stale one the
   * target of the older rule if that was a proxy rule, and none otherwise.
   */
  method AcceptProxied(g: Glutton, remote: string, local: string, now: int) returns (d: Dispatch, matched: Rule?)
    requires g.Valid()
    modifies g.connTable
    ensures g.Valid() && (d.Handed? ==> g.KeyOf(remote).Some?)
    ensures d.Handed? && matched != null && matched.kind == "proxy_tcp" ==>
      (ProxyGuard(d.md.rule).Dials? <==>
        (g.KeyOf(remote).value in old(g.connTable.table) ==>
          old(g.connTable.table)[g.KeyOf(remote).value].rule.kind == "proxy_tcp"))
    ensures d.Handed? && matched != null && matched.kind == "proxy_tcp" ==>
      if g.KeyOf(remote).value !in old(g.connTable.table) then DialsTargetOf(d.md.rule, matched)
      else
        var older := old(g.connTable.table)[g.KeyOf(remote).value].rule;
        if older.kind == "proxy_tcp" then DialsTargetOf(d.md.rule, older) else ProxyGuard(d.md.rule) == Refuses
  {
    ghost var e;
    d, matched, e := g.Accept(remote, local, now);
    if d.Handed? { GuardsPassExactly(g, d.md.rule); }
  }

  /**
   * The other case exists: a client that spoke FTP and comes back from the same port to a proxied one, within the
   * flush age, is routed by the proxy rule but carries the FTP rule, and the proxy refuses it. What was is the first
   * connection's hand-over, to the FTP handler.
   */
  method StaleKeyIsRefused(g: Glutton, ftp: Rule, proxy: Rule, client: string, first: string, second: string)
    returns (was: Dispatch, d: Dispatch, matched: Rule?)
    requires g.Valid() && g.rules == [ftp, proxy] && ftp.kind == "conn_handler" && proxy.kind == "proxy_tcp"
    requires g.handlers == {"ftp", "proxy_tcp"} && ftp.target == "ftp" && g.connTable.table == map[]
    requires forall local :: local in {first, second} ==>
      Forge("tcp", client, local).Some? && g.pcap.forges(Forge("tcp", client, local).value)
    requires Accepts(ftp, g.pcap, Forge("tcp", client, first).value)
    requires !Accepts(ftp, g.pcap, Forge("tcp", client, second).value)
      && Accepts(proxy, g.pcap, Forge("tcp", client, second).value)
    requires g.KeyOf(client).Some?
    modifies g.connTable
    ensures was.Handed? && was.name == "ftp" && was.md.rule == ftp
    ensures d.Handed? && matched == proxy && d.name == "proxy_tcp" && d.md.rule == ftp
      && ProxyGuard(d.md.rule) == Refuses
  {
    ghost var e;
    was, matched, e := g.Accept(client, first, 0);
    assert g.rules[0] == ftp && g.rules[1] == proxy;
    assert matched == ftp && g.connTable.table[g.KeyOf(client).value].rule == ftp;
    d, matched, e := g.Accept(client, second, 1);
    GuardsPassExactly(g, ftp);
  }
}
