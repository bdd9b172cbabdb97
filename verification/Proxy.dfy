/** The proxy's goroutine on sockets, shown to be a run of the pipe machine, and what becomes of its report. */
module Proxy {
  import opened Wrappers
  import opened Sequences
  import opened Pipes
  import Duplex

  /**
   * What the environment makes of one call on a socket: how many bytes, which error, whether the end of the stream
   * is reported along with its last bytes, and whether a write stops short without an error.
   */
  datatype Answer = Answer(size: nat, err: Option<Error>, eofWithData: bool, short: bool)

  /** A TCP connection: the peer's stream, and the environment's plan for each call made on the socket. */
  class Conn {
    const incoming: Bytes
    const plan: nat -> Answer
    var pos: nat
    var readShut: bool
    var outgoing: Bytes
    var writeShut: bool
    var calls: nat

    ghost function View(): Socket
      reads this
    {
      Socket(incoming, pos, readShut, outgoing, writeShut)
    }

    /** Nothing goes wrong on the connection, whatever the chunks. */
    ghost predicate Undisturbed() {
      forall n :: plan(n).err == None && !plan(n).short
    }

    constructor (incoming: Bytes, plan: nat -> Answer)
      ensures View() == Socket(incoming, 0, false, [], false) && this.plan == plan
    {
      this.incoming, this.plan, pos, readShut, outgoing, writeShut, calls := incoming, plan, 0, false, [], false, 0;
    }

    /** Some of the bytes that are left, the end of the stream at its end, or some other error, also with bytes. */
    method Read(capacity: nat) returns (p: Bytes, err: Option<Error>)
      requires pos <= |incoming| && capacity > 0
      modifies `pos, `calls
      ensures old(pos) + |p| == pos <= |incoming| && |p| <= capacity && p == incoming[old(pos)..pos]
      ensures (err == None ==> |p| > 0) && (err == Some(Eof) ==> pos == |incoming|)
      ensures Undisturbed() ==> err == None || err == Some(Eof)
    {
      var answer, left := plan(calls), |incoming| - pos;
      var most := if capacity < left then capacity else left;
      var n := if answer.size < most then answer.size else most;
      err := if answer.err == Some(Eof) then None else answer.err;
      if err == None {
        if left == 0 || (n == left && answer.eofWithData) {
          err := Some(Eof);
        } else if n == 0 {
          n := 1;
        }
      }
      p, pos, calls := incoming[pos..pos + n], pos + n, calls + 1;
    }

    /** Some of the bytes go out, with or without an error; all of them when nothing goes wrong. */
    method Write(p: Bytes) returns (n: nat, err: Option<Error>)
      modifies `outgoing, `calls
      ensures n <= |p| && outgoing == old(outgoing) + p[..n]
      ensures Undisturbed() ==> err == None && n == |p|
    {
      var answer := plan(calls);
      err := answer.err;
      n := if (err == None && !answer.short) || answer.size > |p| then |p| else answer.size;
      outgoing, calls := outgoing + p[..n], calls + 1;
    }

    method CloseWrite() returns (err: Option<Error>)
      modifies `writeShut, `calls
      ensures writeShut && err == old(plan(calls)).err && (Undisturbed() ==> err == None)
    {
      err, writeShut, calls := plan(calls).err, true, calls + 1;
    }

    method CloseRead() returns (err: Option<Error>)
      modifies `readShut, `calls
      ensures readShut && err == old(plan(calls)).err && (Undisturbed() ==> err == None)
    {
      err, readShut, calls := plan(calls).err, true, calls + 1;
    }

    method SetDeadline() returns (err: Option<Error>)
      modifies `calls
      ensures Undisturbed() ==> err == None
    {
      err, calls := plan(calls).err, calls + 1;
    }
  }

  class Writer {
    const conn: Conn
    const session: Session
    const dir: string
    var written: nat
    var payload: Bytes

    constructor (conn: Conn, session: Session, dir: string)
      ensures this.conn == conn && Pipe(Reading) == Opened(session, dir)
    {
      this.conn, this.session, this.dir, written, payload := conn, session, dir, 0, [];
    }

    ghost function Pipe(phase: Phase): Pipe
      reads this
    {
      Pipes.Pipe(session, dir, written, payload, phase)
    }

    /** Only the bytes that a write without error put on the wire are counted and sampled. */
    method Write(p: Bytes) returns (n: nat, err: Option<Error>, ghost wire: Option<Error>)
      modifies this, conn`outgoing, conn`calls
      ensures conn.Undisturbed() ==> wire == None && n == |p|
      ensures n <= |p| && conn.outgoing == old(conn.outgoing) + p[..n]
      ensures forall readErr ::
        var after := AfterWrite(old(Pipe(Writing(p, readErr))), n, wire);
        Pipe(after.phase) == after
      ensures err == if wire == None && n < |p| then Some(ShortWrite) else wire
    {
      n, err := conn.Write(p);
      wire := err;
      if err != None { return; }
      if n > 0 {
        written := written + n;
        StorePayload(p[..n]);
      }
      if n != |p| { err := Some(ShortWrite); }
    }

    method StorePayload(more: Bytes)
      modifies `payload
      ensures payload == Stored(session, old(payload), more)
    {
      if !session.producer || session.payloadSize <= 0 { return; }
      if |payload| >= session.payloadSize { return; }
      var p, remaining := more, session.payloadSize - |payload|;
      if |p| > remaining { p := p[..remaining]; }
      payload := payload + p;
    }

    method Event() returns (e: Option<Event>)
      ensures forall phase :: e == EventOf(Pipe(phase))
    {
      if !session.producer || |payload| == 0 { return None; }
      return Some(Pipes.Event(dir, payload, written, written > |payload|));
    }
  }

  ghost function Now(src: Conn, w: Writer, phase: Phase): State
    reads src, w, w.conn
  {
    State(src.View(), w.conn.View(), w.Pipe(phase))
  }

  /** A run of the machine that has got to where the goroutine is. */
  ghost predicate Follows(start: State, actions: seq<Action>, now: State) {
    CanRun(start, actions) && Run(start, actions) == now
  }

  method ReadNext(w: Writer, src: Conn, ghost start: State, ghost actions: seq<Action>)
    returns (p: Bytes, err: Option<Error>, ghost longer: seq<Action>)
    requires src.pos <= |src.incoming| && Follows(start, actions, Now(src, w, Reading)) && src != w.conn
    modifies src`pos, src`calls
    ensures src.pos == old(src.pos) + |p| <= |src.incoming| && (err == None ==> |p| > 0)
    ensures src.Undisturbed() ==> err == None || err == Some(Eof)
    ensures Follows(start, longer, Now(src, w, if |p| > 0 then Writing(p, err) else AfterRead(err)))
  {
    p, err := src.Read(BUFFER);
    RunAppend(start, actions, Read(|p|, err));
    longer := actions + [Read(|p|, err)];
  }

  method WriteNext(w: Writer, src: Conn, p: Bytes, readErr: Option<Error>, ghost start: State,
      ghost actions: seq<Action>)
    returns (err: Option<Error>, ghost longer: seq<Action>)
    requires Follows(start, actions, Now(src, w, Writing(p, readErr))) && src != w.conn
    modifies w, w.conn`outgoing, w.conn`calls
    ensures w.conn.Undisturbed() ==> err == None
    ensures Follows(start, longer, Now(src, w, if err != None then ClosingWrite(err) else AfterRead(readErr)))
  {
    var n;
    ghost var wire;
    n, err, wire := w.Write(p);
    RunAppend(start, actions, Write(n, wire));
    longer := actions + [Write(n, wire)];
  }

  /** io.Copy: the actions lead from the start to the two half-closes. */
  method Copy(w: Writer, src: Conn) returns (err: Option<Error>, ghost actions: seq<Action>)
    requires src != w.conn && src.pos <= |src.incoming|
    modifies src`pos, src`calls, w, w.conn`outgoing, w.conn`calls
    ensures src.pos <= |src.incoming| && (src.Undisturbed() && w.conn.Undisturbed() ==> err == None)
    ensures Follows(old(Now(src, w, Reading)), actions, Now(src, w, ClosingWrite(err)))
  {
    ghost var start := Now(src, w, Reading);
    actions := [];
    while true
      invariant src.pos <= |src.incoming| && Follows(start, actions, Now(src, w, Reading))
      decreases |src.incoming| - src.pos
    {
      var p, readErr;
      p, readErr, actions := ReadNext(w, src, start, actions);
      if |p| > 0 {
        var writeErr;
        writeErr, actions := WriteNext(w, src, p, readErr, start, actions);
        if writeErr != None { return writeErr, actions; }
      }
      if readErr != None { return if readErr == Some(Eof) then None else readErr, actions; }
    }
  }

  /** finishWriteSide and finishReadSide on a socket that can be half-closed. */
  function CloseResult(err: Option<Error>): Option<Error> {
    if err == Some(Closed) then None else err
  }

  /** The half-closes after io.Copy, whose errors count only when there was none before. */
  method Finish(w: Writer, src: Conn, copyErr: Option<Error>, ghost start: State, ghost actions: seq<Action>)
    returns (err: Option<Error>, ghost longer: seq<Action>)
    requires src != w.conn && Follows(start, actions, Now(src, w, ClosingWrite(copyErr)))
    modifies src`readShut, src`calls, w.conn`writeShut, w.conn`calls
    ensures src.Undisturbed() && w.conn.Undisturbed() ==> err == copyErr
    ensures err ==
      if copyErr != None then copyErr
      else if old(w.conn.plan(w.conn.calls)).err !in {None, Some(Closed)} then old(w.conn.plan(w.conn.calls)).err
      else if old(src.plan(src.calls)).err != Some(Closed) then old(src.plan(src.calls)).err
      else None
    ensures Follows(start, longer, Now(src, w, Reporting(err)))
  {
    err := copyErr;
    var closeErr := w.conn.CloseWrite();
    RunAppend(start, actions, CloseWrite(closeErr));
    longer := actions + [CloseWrite(closeErr)];
    if CloseResult(closeErr) != None && err == None { err := closeErr; }
    assert Follows(start, longer, Now(src, w, ClosingRead(err)));
    closeErr := src.CloseRead();
    RunAppend(start, longer, CloseRead(closeErr));
    longer := longer + [CloseRead(closeErr)];
    if CloseResult(closeErr) != None && err == None { err := closeErr; }
  }

  /** The whole goroutine is a run of the machine to its report, so what holds of every such run holds of it. */
  method Pipe(dst: Conn, src: Conn, session: Session, dir: string)
    returns (r: Result, ghost actions: seq<Action>, ghost end: Pipes.Pipe)
    requires src != dst && src.pos <= |src.incoming|
    modifies src`pos, src`readShut, src`calls, dst`outgoing, dst`writeShut, dst`calls
    ensures src.Undisturbed() && dst.Undisturbed() ==> r.err == None
    ensures Follows(old(State(src.View(), dst.View(), Opened(session, dir))), actions,
      State(src.View(), dst.View(), end))
    ensures end.phase == Done(r) && r.dir == dir
  {
    ghost var start := State(src.View(), dst.View(), Opened(session, dir));
    var w := new Writer(dst, session, dir);
    var err;
    err, actions := Copy(w, src);
    err, actions := Finish(w, src, err, start, actions);
    var e := w.Event();
    r := Pipes.Result(dir, w.written, e, err);
    RunAppend(start, actions, Report);
    actions, end := actions + [Report], w.Pipe(Done(r));
  }

  /** A pipe between fresh sockets, in the caller's terms: what a report means for the two peers. */
  method PipeOnce(dst: Conn, src: Conn, session: Session, dir: string) returns (r: Result, ghost actions: seq<Action>)
    requires src != dst && src.pos == 0 && dst.outgoing == []
    modifies src`pos, src`readShut, src`calls, dst`outgoing, dst`writeShut, dst`calls
    ensures src.Undisturbed() && dst.Undisturbed() ==> r.err == None
    ensures CanRun(old(State(src.View(), dst.View(), Opened(session, dir))), actions)
    ensures r.err == FirstOf(Errors(actions))
    ensures r.dir == dir && (r.event.Some? ==> r.event.value.dir == dir)
    ensures dst.outgoing <= src.incoming && r.bytes <= |dst.outgoing| && src.readShut && dst.writeShut
    ensures r.err == None ==> dst.outgoing == src.incoming && r.bytes == |src.incoming|
    ensures r.event.Some? <==> session.producer && session.payloadSize > 0 && r.bytes > 0
    ensures r.event.Some? ==>
      r.event.value.bytes == r.bytes && (r.event.value.truncated <==> r.bytes > session.payloadSize)
    ensures r.event.Some? ==>
      r.event.value.payload == dst.outgoing[..if r.bytes <= session.payloadSize then r.bytes else session.payloadSize]
  {
    ghost var start := State(src.View(), dst.View(), Opened(session, dir));
    ghost var end;
    r, actions, end := Pipe(dst, src, session, dir);
    FirstErrorIsReported(start, actions);
    DeliveredIsPrefix(start, actions);
    RunsEnd(start, actions);
    RunKeepsInv(start, actions);
    SourceStays(start, actions);
    if session.producer && session.payloadSize > 0 {
      CaptureIsPrefix(start, actions);
    } else {
      NoCapture(start, actions);
    }
  }

  // ---------- Both directions ----------

  /** The world after a run of one pipe to its report. */
  lemma OneDone(w: Duplex.World, up: bool, actions: seq<Action>, end: State, r: Result)
    requires Follows(Duplex.Side(w, up), actions, end) && end.pipe.phase == Done(r)
    requires !Duplex.Side(w, up).pipe.phase.Done?
    ensures Duplex.Interleaves(w, Duplex.Labels(up, actions))
    ensures Duplex.After(w, Duplex.Labels(up, actions)) ==
      if up then Duplex.World(end.src, end.dst, end.pipe, w.down, w.done + [r])
      else Duplex.World(end.dst, end.src, w.up, end.pipe, w.done + [r])
  {
    Duplex.RunsAsOne(w, up, actions);
  }

  /**
   * pipeBothWays, with the goroutines scheduled one after the other: an interleaving of the two pipes with both
   * reports in the channel. Any other schedule in which they do the same comes to the same.
   */
  method PipeBothWays(client: Conn, target: Conn, session: Session, upDir: string, downDir: string)
    returns (results: seq<Result>, ghost ls: seq<Duplex.Label>, ghost v: Duplex.World)
    requires client != target && client.pos <= |client.incoming| && target.pos <= |target.incoming|
    modifies client, target
    ensures client.Undisturbed() && target.Undisturbed() ==> forall r :: r in results ==> r.err == None
    ensures |results| == 2 && v.up.phase == Done(results[0]) && v.down.phase == Done(results[1])
    ensures results[0].dir == upDir && results[1].dir == downDir
    ensures v == Duplex.World(client.View(), target.View(), v.up, v.down, results)
    ensures var up, down := Opened(session, upDir), Opened(session, downDir);
      var w := Duplex.World(old(client.View()), old(target.View()), up, down, []);
      Duplex.Interleaves(w, ls) && Duplex.After(w, ls) == v
  {
    ghost var w := Duplex.World(client.View(), target.View(), Opened(session, upDir), Opened(session, downDir), []);
    var up, down;
    ghost var actions, more, end;
    up, actions, end := Pipe(target, client, session, upDir);
    OneDone(w, true, actions, State(client.View(), target.View(), end), up);
    ghost var u := Duplex.After(w, Duplex.Labels(true, actions));
    down, more, end := Pipe(client, target, session, downDir);
    OneDone(u, false, more, State(target.View(), client.View(), end), down);
    Duplex.RunOn(w, Duplex.Labels(true, actions), Duplex.Labels(false, more));
    ls := Duplex.Labels(true, actions) + Duplex.Labels(false, more);
    v := Duplex.After(w, ls);
    results := [up, down];
  }

  /** Both directions between fresh sockets, in the peers' terms. */
  method ProxyOnce(client: Conn, target: Conn, session: Session, upDir: string, downDir: string)
    returns (results: seq<Result>)
    requires client != target && client.pos == target.pos == 0 && client.outgoing == target.outgoing == []
    modifies client, target
    ensures |results| == 2 && client.readShut && client.writeShut && target.readShut && target.writeShut
    ensures target.outgoing <= client.incoming && client.outgoing <= target.incoming
    ensures results[0].err == None ==> target.outgoing == client.incoming
    ensures results[1].err == None ==> client.outgoing == target.incoming
    ensures client.Undisturbed() && target.Undisturbed() ==>
      target.outgoing == client.incoming && client.outgoing == target.incoming
  {
    ghost var w := Duplex.World(client.View(), target.View(), Opened(session, upDir), Opened(session, downDir), []);
    ghost var ls, v;
    results, ls, v := PipeBothWays(client, target, session, upDir, downDir);
    Duplex.BothDirections(w, ls);
    Duplex.BothCapture(w, ls, true);
    Duplex.BothCapture(w, ls, false);
    assert results[0] in results && results[1] in results;
  }

  // ---------- What becomes of the reports ----------

  function EventsOf(results: seq<Result>): seq<Event> {
    if results == [] then [] else EventsOfOne(results[0]) + EventsOf(results[1..])
  }

  function EventsOfOne(r: Result): seq<Event> { if r.event.Some? then [r.event.value] else [] }

  lemma {:induction false} EventsConcat(rs: seq<Result>, ss: seq<Result>)
    ensures EventsOf(rs + ss) == EventsOf(rs) + EventsOf(ss)
  {
    if rs == [] {
      assert rs + ss == ss;
    } else {
      assert (rs + ss)[1..] == rs[1..] + ss;
      EventsConcat(rs[1..], ss);
      Regroup(EventsOfOne(rs[0]), EventsOf(rs[1..]), EventsOf(ss));
    }
  }

  lemma OneMoreEvent(results: seq<Result>, i: nat)
    requires i < |results|
    ensures EventsOf(results[..i + 1]) ==
      if results[i].event.Some? then EventsOf(results[..i]) + [results[i].event.value] else EventsOf(results[..i])
  {
    assert results[..i + 1] == results[..i] + [results[i]];
    EventsConcat(results[..i], [results[i]]);
    assert [results[i]][1..] == [];
  }

  /** The events of the results that have one, in the order the results came in. */
  method EventsFromResults(results: seq<Result>) returns (events: seq<Event>)
    ensures events == EventsOf(results)
  {
    events := [];
    for i := 0 to |results|
      invariant events == EventsOf(results[..i])
    {
      OneMoreEvent(results, i);
      if results[i].event.Some? { events := events + [results[i].event.value]; }
    }
    assert results[..|results|] == results;
  }

  lemma EventsMove(before: seq<Result>, r: Result, after: seq<Result>)
    ensures multiset(EventsOf(before + ([r] + after))) == multiset(EventsOf([r])) + multiset(EventsOf(before + after))
  {
    EventsConcat(before, after);
    EventsConcat(before, [r] + after);
    EventsConcat([r], after);
  }

  lemma EventsHead(rs: seq<Result>)
    requires rs != []
    ensures multiset(EventsOf(rs)) == multiset(EventsOf([rs[0]])) + multiset(EventsOf(rs[1..]))
  {
    assert rs == [rs[0]] + rs[1..];
    EventsConcat([rs[0]], rs[1..]);
  }

  /** Whatever order the reports come in, the same events are produced. */
  lemma {:induction false} EventsAnyOrder(rs: seq<Result>, ss: seq<Result>)
    requires multiset(rs) == multiset(ss)
    ensures multiset(EventsOf(rs)) == multiset(EventsOf(ss))
    decreases |rs|
  {
    if rs == [] {
      assert |ss| == |multiset(ss)| == |multiset(rs)| == 0;
    } else {
      var before, after := TakenOut(rs, ss);
      EventsAnyOrder(rs[1..], before + after);
      EventsMove(before, rs[0], after);
      EventsHead(rs);
    }
  }

  predicate Textual(b: Byte) { 32 <= b <= 126 || b == 10 || b == 13 || b == 9 }

  function Count(data: Bytes): nat {
    if data == [] then 0 else Count(data[..|data| - 1]) + if Textual(data[|data| - 1]) then 1 else 0
  }

  /** Where the printable bytes stand: from the blank to the tilde, the tab and the two line ends. */
  ghost function Printables(data: Bytes): set<nat> {
    set i: nat | i < |data| &&
      (' ' as int <= data[i] as int <= '~' as int || data[i] as int in {'\t' as int, '\n' as int, '\r' as int})
  }

  lemma {:induction false} CountIsMany(data: Bytes)
    ensures Count(data) == |Printables(data)|
  {
    if data != [] {
      var n := |data| - 1;
      var front := data[..n];
      CountIsMany(front);
      assert Printables(data) == Printables(front) + if Textual(data[n]) then {n} else {};
    }
  }

  /** Text means at least 81 bytes in a hundred, not merely more than 80: the percentage is rounded down. */
  method IsLikelyText(data: Bytes) returns (text: bool)
    ensures text <==> data != [] && 100 * |Printables(data)| >= 81 * |data|
  {
    if |data| == 0 { return false; }
    var printable := 0;
    for i := 0 to |data|
      invariant printable == Count(data[..i])
    {
      assert data[..i + 1][..i] == data[..i];
      if Textual(data[i]) { printable := printable + 1; }
    }
    assert data[..|data|] == data;
    text := printable * 100 / |data| > 80;
    FloorAbove(printable * 100, |data|, 80);
    CountIsMany(data);
  }

  /** Seventeen printable bytes of 21 are more than 80 in a hundred, and still no text. */
  method NotQuiteText() returns (data: Bytes, text: bool)
    ensures 100 * |Printables(data)| > 80 * |data| && !text
  {
    data := seq(21, i => if i < 17 then 'a' as Byte else 0);
    CountFront(data, 17);
    CountIsMany(data);
    text := IsLikelyText(data);
  }

  /** Bytes of which just the first m are printable. */
  lemma {:induction false} CountFront(data: Bytes, m: nat)
    requires m <= |data| && forall i :: 0 <= i < |data| ==> (Textual(data[i]) <==> i < m)
    ensures Count(data) == m
    decreases |data|
  {
    if data != [] { CountFront(data[..|data| - 1], if m == |data| then m - 1 else m); }
  }

  lemma FloorAbove(a: nat, b: nat, c: nat)
    requires b > 0
    ensures a / b > c <==> a >= (c + 1) * b
  {
    assert a == a / b * b + a % b;
    if a / b > c {
      MulMonotone(c + 1, a / b, b);
    } else {
      MulMonotone(a / b + 1, c + 1, b);
    }
  }

  lemma MulMonotone(x: nat, y: nat, b: nat)
    requires x <= y
    ensures x * b <= y * b
  {
  }
}
