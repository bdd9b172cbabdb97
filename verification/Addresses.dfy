/** Host and port in one string, as Go's net package splits and joins them, and the targets of proxy rules. */
module Addresses {
  import opened GoStrings

  /** strings.IndexByte: the first position of c, or -1. */
  function IndexOf(s: string, c: char): (i: int)
    ensures -1 <= i < |s| && (i == -1 <==> c !in s)
    ensures i >= 0 ==> s[i] == c && c !in s[..i]
  {
    CutIsFirst(s, c);
    match Cut(s, c)
    case None => -1
    case Some((before, after)) =>
      assert s[..|before|] == before;
      |before|
  }

  datatype AddrError = MissingPort | MissingBracket | TooManyColons | UnexpectedOpen | UnexpectedClose

  datatype Split = Pair(host: string, port: string) | Bad(reason: AddrError)

  /** net.SplitHostPort */
  function SplitHostPort(s: string): Split {
    var i := LastIndexOf(s, ':');
    if i < 0 then Bad(MissingPort)
    else if s[0] == '[' then
      var end := IndexOf(s, ']');
      if end < 0 then Bad(MissingBracket)
      else if end + 1 == |s| then Bad(MissingPort)
      else if end + 1 != i then Bad(if s[end + 1] == ':' then TooManyColons else MissingPort)
      else if '[' in s[1..] then Bad(UnexpectedOpen)
      else if ']' in s[end + 1..] then Bad(UnexpectedClose)
      else Pair(s[1..end], s[i + 1..])
    else if ':' in s[..i] then Bad(TooManyColons)
    else if '[' in s then Bad(UnexpectedOpen)
    else if ']' in s then Bad(UnexpectedClose)
    else Pair(s[..i], s[i + 1..])
  }

  /** net.JoinHostPort */
  function JoinHostPort(host: string, port: string): string {
    if ':' in host then "[" + host + "]:" + port else host + ":" + port
  }

  predicate NoBrackets(s: string) { '[' !in s && ']' !in s }

  lemma {:induction false} LastIndexIsLast(s: string, c: char)
    ensures LastIndexOf(s, c) == -1 <==> c !in s
    ensures c !in s[LastIndexOf(s, c) + 1..]
  {
    if s != [] {
      LastIndexIsLast(s[..|s| - 1], c);
      assert s == s[..|s| - 1] + [s[|s| - 1]];
      var i := LastIndexOf(s[..|s| - 1], c);
      assert s[i + 1..] == s[..|s| - 1][i + 1..] + [s[|s| - 1]];
    }
  }

  /** Whatever is split, no bracket is left in either part and no colon in the port. */
  lemma SplitParts(s: string)
    requires SplitHostPort(s).Pair?
    ensures NoBrackets(SplitHostPort(s).host) && NoBrackets(SplitHostPort(s).port) && ':' !in SplitHostPort(s).port
  {
    LastIndexIsLast(s, ':');
  }

  lemma BracketedSplits(host: string, port: string)
    requires NoBrackets(host) && NoBrackets(port) && ':' !in port
    ensures SplitHostPort("[" + host + "]:" + port) == Pair(host, port)
  {
    var s := "[" + host + "]:" + port;
    var i := |host| + 2;
    assert s[i] == ':' && s[i + 1..] == port;
    LastIndexOfIs(s, ':', i);
    assert s[..|host| + 1] == "[" + host && s[|host| + 1] == ']';
    assert IndexOf(s, ']') == |host| + 1;
    assert s[1..] == host + "]:" + port && s[|host| + 2..] == ":" + port && s[1..|host| + 1] == host;
  }

  lemma PlainSplits(host: string, port: string)
    requires NoBrackets(host) && NoBrackets(port) && ':' !in host && ':' !in port
    ensures SplitHostPort(host + ":" + port) == Pair(host, port)
  {
    var s, i := host + ":" + port, |host|;
    assert s[i] == ':' && s[i + 1..] == port && s[..i] == host;
    LastIndexOfIs(s, ':', i);
  }

  /** Joining is undone by splitting. */
  lemma JoinThenSplit(host: string, port: string)
    requires NoBrackets(host) && NoBrackets(port) && ':' !in port
    ensures SplitHostPort(JoinHostPort(host, port)) == Pair(host, port)
  {
    if ':' in host { BracketedSplits(host, port); } else { PlainSplits(host, port); }
  }

  /** An address written from a host and a port, with brackets or without. */
  predicate WrittenFrom(s: string, host: string, port: string) {
    && NoBrackets(host) && NoBrackets(port) && ':' !in port
    && (s == "[" + host + "]:" + port || (':' !in host && s == host + ":" + port))
  }

  /** Exactly these split, and into what they are written from. */
  lemma SplitsExactly(s: string, host: string, port: string)
    ensures SplitHostPort(s) == Pair(host, port) <==> WrittenFrom(s, host, port)
  {
    if SplitHostPort(s) == Pair(host, port) {
      SplitParts(s);
      assert s == if s[0] == '[' then "[" + host + "]:" + port else host + ":" + port;
    }
    if NoBrackets(host) && NoBrackets(port) && ':' !in port {
      if s == "[" + host + "]:" + port { BracketedSplits(host, port); }
      if ':' !in host && s == host + ":" + port { JoinThenSplit(host, port); }
    }
  }

  /** Without a colon the port is missing, and with more than one and no brackets there are too many. */
  lemma SplitErrors(s: string, a: string, b: string)
    ensures ':' !in s ==> SplitHostPort(s) == Bad(MissingPort)
    ensures a != "" && a[0] != '[' && ':' in a ==> SplitHostPort(a + ":" + b) == Bad(TooManyColons)
    ensures ']' !in a && ':' in a ==> SplitHostPort("[" + a) == Bad(MissingBracket)
  {
    LastIndexIsLast(s, ':');
    if ':' in a {
      var long := a + ":" + b;
      LastIndexIsLast(long, ':');
      assert long[|a|] == ':' && long[LastIndexOf(long, ':') + 1..] == [] + long[LastIndexOf(long, ':') + 1..];
      AtOrAfter(long, |a|);
      assert long[..LastIndexOf(long, ':')][..|a|] == a;
      LastIndexIsLast("[" + a, ':');
      assert ("[" + a)[1..] == a;
    }
  }

  lemma AtOrAfter(s: string, i: nat)
    requires i < |s| && s[i] == ':'
    ensures LastIndexOf(s, ':') >= i
  {
    LastIndexIsLast(s, ':');
    var from := LastIndexOf(s, ':') + 1;
    assert forall k :: from <= k < |s| ==> s[k] == s[from..][k - from];
  }

  /** Splitting is undone by joining unless the host was in brackets that it did not need. */
  lemma SplitThenJoinExactly(s: string)
    requires SplitHostPort(s).Pair?
    ensures var Pair(host, port) := SplitHostPort(s); JoinHostPort(host, port) == s <==> s[0] != '[' || ':' in host
  {
    var Pair(host, port) := SplitHostPort(s);
    SplitParts(s);
    if s[0] == '[' {
      assert s == "[" + host + "]:" + port;
      if ':' !in host { assert (host + ":" + port)[0] != '['; }
    } else {
      assert s == host + ":" + port;
    }
  }

  // ---------- Targets ----------

  predicate IsSpace(c: char) {
    c in "\t\n\r " || c as int in {0x0b, 0x0c, 0x85, 0xa0, 0x1680, 0x2028, 0x2029, 0x202f, 0x205f, 0x3000}
      || 0x2000 <= c as int <= 0x200a
  }

  /** Among the first 128 characters these are blanks: the five from the tab to the carriage return, and the space. */
  lemma BlanksInAscii(c: char)
    requires c < 128 as char
    ensures IsSpace(c) <==> 9 <= c as int <= 13 || c == ' '
  {
    assert c in "\t\n\r " <==> c == '\t' || c == '\n' || c == '\r' || c == ' ';
  }

  /** strings.TrimSpace */
  function Trim(s: string): (r: string)
    ensures r == [] <==> forall c :: c in s ==> IsSpace(c)
    ensures r != [] ==> !IsSpace(r[0]) && !IsSpace(r[|r| - 1])
  {
    if s == [] then s
    else if IsSpace(s[0]) then Trim(s[1..])
    else if IsSpace(s[|s| - 1]) then Trim(s[..|s| - 1])
    else s
  }

  /** r stands in s with nothing but blanks around it. */
  ghost predicate Middle(s: string, r: string, i: nat) {
    && i + |r| <= |s| && s[i..i + |r|] == r
    && forall k :: 0 <= k < i || i + |r| <= k < |s| ==> IsSpace(s[k])
  }

  lemma BlankBefore(s: string, r: string, i: nat)
    requires s != [] && IsSpace(s[0]) && Middle(s[1..], r, i)
    ensures Middle(s, r, i + 1)
  {
    var rest := s[1..];
    assert forall k :: 0 < k < |s| ==> s[k] == rest[k - 1];
    assert s[i + 1..i + 1 + |r|] == rest[i..i + |r|];
  }

  lemma BlankAfter(s: string, r: string, i: nat)
    requires s != [] && IsSpace(s[|s| - 1]) && Middle(s[..|s| - 1], r, i)
    ensures Middle(s, r, i)
  {
    var front := s[..|s| - 1];
    assert forall k :: 0 <= k < |front| ==> s[k] == front[k];
    assert s[i..i + |r|] == front[i..i + |r|];
  }

  /** Trimming takes blanks off the two ends and nothing else. */
  lemma {:induction false} TrimIsMiddle(s: string) returns (i: nat)
    ensures Middle(s, Trim(s), i)
  {
    i := 0;
    if s == [] {
    } else if IsSpace(s[0]) {
      i := TrimIsMiddle(s[1..]);
      BlankBefore(s, Trim(s[1..]), i);
      i := i + 1;
    } else if IsSpace(s[|s| - 1]) {
      i := TrimIsMiddle(s[..|s| - 1]);
      BlankAfter(s, Trim(s[..|s| - 1]), i);
    }
  }

  datatype ProxyTarget = ProxyTarget(host: string, port: nat, dialAddress: string)

  datatype TargetError = NoTarget | BadAddress(reason: AddrError) | NoHost | BadPort | PortOutOfRange(port: int)

  datatype Parsed = Target(target: ProxyTarget) | Refused(error: TargetError)

  /** parseProxyTarget */
  function ParseProxyTarget(text: string): Parsed {
    var raw := Trim(text);
    if raw == "" then Refused(NoTarget)
    else match SplitHostPort(raw)
      case Bad(reason) => Refused(BadAddress(reason))
      case Pair(host, portValue) =>
        if Trim(host) == "" then Refused(NoHost)
        else match Atoi(portValue)
          case Valid(port) =>
            if port < 1 || port > 65535 then Refused(PortOutOfRange(port))
            else Target(ProxyTarget(host, port, JoinHostPort(host, Itoa(port))))
          case _ => Refused(BadPort)
  }

  /** A target that HandleProxyTCP can dial. */
  predicate Dialable(t: ProxyTarget) {
    && 1 <= t.port <= 65535 && t.dialAddress != "" && Trim(t.host) != ""
    && SplitHostPort(t.dialAddress) == Pair(t.host, Itoa(t.port)) && Atoi(Itoa(t.port)) == Valid(t.port)
  }

  /** Every target that is accepted can be dialled, and its dial address reads back as its host and port. */
  lemma AcceptedIsDialable(text: string)
    ensures ParseProxyTarget(text).Target? ==> Dialable(ParseProxyTarget(text).target)
  {
    if ParseProxyTarget(text).Target? {
      var t := ParseProxyTarget(text).target;
      SplitParts(Trim(text));
      ItoaDigits(t.port);
      AtoiItoa(t.port);
      JoinThenSplit(t.host, Itoa(t.port));
    }
  }

  /** The ends of a printed address, which trimming looks at. */
  lemma PrintedEnds(host: string, port: string)
    requires (':' in host || (host != "" && !IsSpace(host[0]))) && port != "" && forall c :: c in port ==> IsDigit(c)
    ensures JoinHostPort(host, port) != "" && Trim(JoinHostPort(host, port)) == JoinHostPort(host, port)
  {
    var s := JoinHostPort(host, port);
    assert s[|s| - 1] == port[|port| - 1] && port[|port| - 1] in port;
    assert s[0] == if ':' in host then '[' else host[0];
  }

  /** And every printed host and port is accepted as what it prints, provided no leading blank is trimmed off it. */
  lemma PrintedIsAccepted(host: string, port: nat)
    requires NoBrackets(host) && Trim(host) != "" && 1 <= port <= 65535
    requires ':' in host || !IsSpace(host[0])
    ensures ParseProxyTarget(JoinHostPort(host, Itoa(port))) ==
      Target(ProxyTarget(host, port, JoinHostPort(host, Itoa(port))))
  {
    ItoaDigits(port);
    AtoiItoa(port);
    JoinThenSplit(host, Itoa(port));
    PrintedEnds(host, Itoa(port));
  }

  lemma NothingToTrim(s: string)
    requires s != "" && !IsSpace(s[0]) && !IsSpace(s[|s| - 1])
    ensures Trim(s) == s
  {
  }

  /** A port by itself is no target, nor is nothing at all. */
  lemma HostIsNeeded(port: string)
    requires NoBrackets(port) && ':' !in port && port != "" && !IsSpace(port[|port| - 1])
    ensures ParseProxyTarget("") == Refused(NoTarget) && ParseProxyTarget(":" + port) == Refused(NoHost)
  {
    PlainSplits("", port);
    assert "" + ":" + port == ":" + port;
    NothingToTrim(":" + port);
  }

  /** With a host, the port decides: it must be a number, and in range. */
  lemma PortDecides(host: string, port: string)
    requires NoBrackets(host) && NoBrackets(port) && ':' !in host && ':' !in port
    requires Trim(host) != "" && !IsSpace(host[0]) && port != "" && !IsSpace(port[|port| - 1])
    ensures match Atoi(port)
      case Valid(n) => ParseProxyTarget(host + ":" + port).Target? <==> 1 <= n <= 65535
      case _ => ParseProxyTarget(host + ":" + port) == Refused(BadPort)
  {
    var s := host + ":" + port;
    PlainSplits(host, port);
    assert s[0] == host[0] && s[|s| - 1] == port[|port| - 1];
    NothingToTrim(s);
  }
}
