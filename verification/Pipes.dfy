/** One direction of the proxy as a machine: io.Copy between two sockets, the half-closes and the report. */
module Pipes {
  import opened Wrappers

  newtype Byte = x: int | 0 <= x < 256

  type Bytes = seq<Byte>

  datatype Error = Eof | UnexpectedEof | Closed | NotConnected | Timeout | ShortWrite | BufferFull | Other(code: int)

  /** What the peer sends and how much of it has been read; what the peer has been sent. */
  datatype Socket = Socket(incoming: Bytes, pos: nat, readShut: bool, outgoing: Bytes, writeShut: bool)

  datatype Session = Session(producer: bool, payloadSize: int)

  datatype Event = Event(dir: string, payload: Bytes, bytes: nat, truncated: bool)

  datatype Result = Result(dir: string, bytes: nat, event: Option<Event>, err: Option<Error>)

  datatype Phase =
    | Reading
    | Writing(chunk: Bytes, readErr: Option<Error>)
    | ClosingWrite(err: Option<Error>)
    | ClosingRead(err: Option<Error>)
    | Reporting(err: Option<Error>)
    | Done(result: Result)

  /** The writer's fields and the point the goroutine has reached. */
  datatype Pipe = Pipe(session: Session, dir: string, written: nat, payload: Bytes, phase: Phase)

  datatype State = State(src: Socket, dst: Socket, pipe: Pipe)

  /** What the goroutine does next, with what the environment makes of it. */
  datatype Action =
    | Read(n: nat, err: Option<Error>)
    | Write(n: nat, err: Option<Error>)
    | CloseWrite(err: Option<Error>)
    | CloseRead(err: Option<Error>)
    | Report

  const BUFFER: nat := 32 * 1024

  function Opened(session: Session, dir: string): Pipe { Pipe(session, dir, 0, [], Reading) }

  // ---------- The steps of a pipe ----------

  /** Reads are of at least one byte or come with an error, and the end of the stream is reported at its end. */
  predicate Enabled(s: State, a: Action) {
    match a
    case Read(n, err) =>
      && s.pipe.phase == Reading && n <= BUFFER && s.src.pos + n <= |s.src.incoming|
      && (err == None ==> n > 0) && (err == Some(Eof) ==> s.src.pos + n == |s.src.incoming|)
    case Write(n, err) => s.pipe.phase.Writing? && n <= |s.pipe.phase.chunk|
    case CloseWrite(_) => s.pipe.phase.ClosingWrite?
    case CloseRead(_) => s.pipe.phase.ClosingRead?
    case Report => s.pipe.phase.Reporting?
  }

  /** Where io.Copy goes when the bytes of a read have been written. */
  function AfterRead(err: Option<Error>): Phase {
    if err == None then Reading else ClosingWrite(if err == Some(Eof) then None else err)
  }

  /** The sample after some more bytes reached the destination. */
  function Stored(session: Session, payload: Bytes, more: Bytes): Bytes {
    if !session.producer || session.payloadSize <= 0 || |payload| >= session.payloadSize then payload
    else
      var remaining := session.payloadSize - |payload|;
      payload + if |more| > remaining then more[..remaining] else more
  }

  function EventOf(p: Pipe): Option<Event> {
    if !p.session.producer || |p.payload| == 0 then None
    else Some(Event(p.dir, p.payload, p.written, p.written > |p.payload|))
  }

  /** An error of a half-close is kept when there was none before and the socket was not already closed. */
  function Merged(err: Option<Error>, closeErr: Option<Error>): Option<Error> {
    if err == None && closeErr != Some(Closed) then closeErr else err
  }

  /** The writer's part of a write that put n bytes of the chunk on the wire. */
  function AfterWrite(p: Pipe, n: nat, err: Option<Error>): Pipe
    requires p.phase.Writing? && n <= |p.phase.chunk|
  {
    if err != None then p.(phase := ClosingWrite(err))
    else
      var sent := p.phase.chunk[..n];
      p.(written := p.written + n, payload := Stored(p.session, p.payload, sent),
         phase := if n < |p.phase.chunk| then ClosingWrite(Some(ShortWrite)) else AfterRead(p.phase.readErr))
  }

  function Take(s: State, a: Action): State
    requires Enabled(s, a)
  {
    match a
    case Read(n, err) =>
      var chunk := s.src.incoming[s.src.pos..s.src.pos + n];
      s.(src := s.src.(pos := s.src.pos + n),
         pipe := s.pipe.(phase := if n > 0 then Writing(chunk, err) else AfterRead(err)))
    case Write(n, err) =>
      s.(dst := s.dst.(outgoing := s.dst.outgoing + s.pipe.phase.chunk[..n]), pipe := AfterWrite(s.pipe, n, err))
    case CloseWrite(err) =>
      s.(dst := s.dst.(writeShut := true), pipe := s.pipe.(phase := ClosingRead(Merged(s.pipe.phase.err, err))))
    case CloseRead(err) =>
      s.(src := s.src.(readShut := true), pipe := s.pipe.(phase := Reporting(Merged(s.pipe.phase.err, err))))
    case Report =>
      s.(pipe := s.pipe.(phase := Done(Result(s.pipe.dir, s.pipe.written, EventOf(s.pipe), s.pipe.phase.err))))
  }

  predicate CanRun(s: State, actions: seq<Action>)
    decreases |actions|
  {
    actions == [] || (Enabled(s, actions[0]) && CanRun(Take(s, actions[0]), actions[1..]))
  }

  function Run(s: State, actions: seq<Action>): State
    requires CanRun(s, actions)
    decreases |actions|
  {
    if actions == [] then s else Run(Take(s, actions[0]), actions[1..])
  }

  lemma {:induction false} RunAppend(s: State, actions: seq<Action>, a: Action)
    requires CanRun(s, actions) && Enabled(Run(s, actions), a)
    ensures CanRun(s, actions + [a]) && Run(s, actions + [a]) == Take(Run(s, actions), a)
    decreases |actions|
  {
    if actions == [] {
      assert [a][1..] == [];
    } else {
      RunAppend(Take(s, actions[0]), actions[1..], a);
      assert (actions + [a])[1..] == actions[1..] + [a];
    }
  }

  // ---------- What every step keeps ----------

  /** The part of the counted bytes that is kept for the producers. */
  function Sample(session: Session, counted: Bytes): Bytes {
    if !session.producer || session.payloadSize <= 0 then []
    else if |counted| <= session.payloadSize then counted else counted[..session.payloadSize]
  }

  lemma StoredIsSample(session: Session, counted: Bytes, more: Bytes)
    ensures Stored(session, Sample(session, counted), more) == Sample(session, counted + more)
  {
  }

  /** The bytes of the source the destination must have, and what of them must be counted, at each phase. */
  predicate Flow(incoming: Bytes, pos: nat, delivered: Bytes, p: Pipe) {
    && pos <= |incoming| && p.written <= |delivered| <= pos
    && delivered == incoming[..|delivered|]
    && p.payload == Sample(p.session, delivered[..p.written])
    && match p.phase
       case Reading => p.written == |delivered| == pos
       case Writing(chunk, err) =>
         && 0 < |chunk| <= pos && p.written == |delivered| == pos - |chunk|
         && chunk == incoming[pos - |chunk|..pos] && (err == Some(Eof) ==> pos == |incoming|)
       case ClosingWrite(err) => Ended(incoming, delivered, p.written, err)
       case ClosingRead(err) => Ended(incoming, delivered, p.written, err)
       case Reporting(err) => Ended(incoming, delivered, p.written, err)
       case Done(r) =>
         && Ended(incoming, delivered, p.written, r.err)
         && r == Result(p.dir, p.written, EventOf(p), r.err)
  }

  /** No error: every byte of the source has been delivered and counted. */
  predicate Ended(incoming: Bytes, delivered: Bytes, written: nat, err: Option<Error>) {
    err == None ==> delivered == incoming && written == |incoming|
  }

  predicate Inv(s: State) {
    Flow(s.src.incoming, s.src.pos, s.dst.outgoing, s.pipe)
  }

  lemma WriteKeepsFlow(incoming: Bytes, pos: nat, delivered: Bytes, p: Pipe, n: nat, err: Option<Error>)
    requires Flow(incoming, pos, delivered, p) && p.phase.Writing? && n <= |p.phase.chunk|
    ensures Flow(incoming, pos, delivered + p.phase.chunk[..n], AfterWrite(p, n, err))
  {
    var sent := p.phase.chunk[..n];
    assert delivered + sent == incoming[..|delivered| + n];
    assert delivered[..p.written] == delivered && (delivered + sent)[..|delivered|] == delivered;
    StoredIsSample(p.session, delivered, sent);
    assert (delivered + sent)[..p.written + n] == delivered + sent;
    assert incoming[..|incoming|] == incoming;
  }

  lemma TakeKeepsInv(s: State, a: Action)
    requires Inv(s) && Enabled(s, a)
    ensures Inv(Take(s, a))
  {
    match a {
      case Write(n, err) => WriteKeepsFlow(s.src.incoming, s.src.pos, s.dst.outgoing, s.pipe, n, err);
      case Read(n, err) => assert s.src.incoming[..|s.src.incoming|] == s.src.incoming;
      case _ =>
    }
  }

  lemma {:induction false} RunKeepsInv(s: State, actions: seq<Action>)
    requires Inv(s) && CanRun(s, actions)
    ensures Inv(Run(s, actions))
    decreases |actions|
  {
    if actions != [] {
      TakeKeepsInv(s, actions[0]);
      RunKeepsInv(Take(s, actions[0]), actions[1..]);
    }
  }

  /** A pipe about to start on a source from which nothing has been read and a destination sent nothing. */
  predicate Starts(s: State) {
    s.src.pos == 0 && s.dst.outgoing == [] && s.pipe == Opened(s.pipe.session, s.pipe.dir)
  }

  // ---------- What holds of every run ----------

  /**
   * At every point the destination has a prefix of the source's stream, and the counted bytes are a prefix of it;
   * a report without an error is of a stream that was delivered and counted whole.
   */
  lemma DeliveredIsPrefix(s: State, actions: seq<Action>)
    requires Starts(s) && CanRun(s, actions)
    ensures var t := Run(s, actions);
            && t.dst.outgoing <= t.src.incoming && t.src.incoming == s.src.incoming
            && t.pipe.written <= |t.dst.outgoing|
            && (t.pipe.phase.Done? && t.pipe.phase.result.err == None ==>
                  t.dst.outgoing == s.src.incoming && t.pipe.phase.result.bytes == |s.src.incoming|)
  {
    RunKeepsInv(s, actions);
    SourceStays(s, actions);
  }

  lemma {:induction false} SourceStays(s: State, actions: seq<Action>)
    requires CanRun(s, actions)
    ensures Run(s, actions).src.incoming == s.src.incoming && Run(s, actions).pipe.session == s.pipe.session
    ensures Run(s, actions).pipe.dir == s.pipe.dir
    decreases |actions|
  {
    if actions != [] { SourceStays(Take(s, actions[0]), actions[1..]); }
  }

  /** Whatever the destination took of each write, the sample and the event's are the front of the counted bytes. */
  lemma CaptureIsPrefix(s: State, actions: seq<Action>)
    requires Starts(s) && CanRun(s, actions) && s.pipe.session.producer && s.pipe.session.payloadSize > 0
    ensures var t, limit := Run(s, actions), s.pipe.session.payloadSize;
            && t.pipe.written <= |t.dst.outgoing|
            && t.pipe.payload == t.dst.outgoing[..if t.pipe.written <= limit then t.pipe.written else limit]
            && (EventOf(t.pipe).Some? <==> t.pipe.written > 0)
            && (EventOf(t.pipe).Some? ==> EventOf(t.pipe).value.payload == t.pipe.payload)
            && (EventOf(t.pipe).Some? ==> EventOf(t.pipe).value.dir == s.pipe.dir)
            && (EventOf(t.pipe).Some? ==> EventOf(t.pipe).value.bytes == t.pipe.written)
            && (EventOf(t.pipe).Some? ==> (EventOf(t.pipe).value.truncated <==> t.pipe.written > limit))
  {
    RunKeepsInv(s, actions);
    SourceStays(s, actions);
  }

  /** Without capture nothing is stored and no event is made. */
  lemma NoCapture(s: State, actions: seq<Action>)
    requires Starts(s) && CanRun(s, actions) && (!s.pipe.session.producer || s.pipe.session.payloadSize <= 0)
    ensures Run(s, actions).pipe.payload == [] && EventOf(Run(s, actions).pipe) == None
  {
    RunKeepsInv(s, actions);
    SourceStays(s, actions);
  }

  /** The bytes of writes that failed after putting some bytes on the wire. */
  function Uncounted(actions: seq<Action>): nat {
    if actions == [] then 0
    else (if actions[0].Write? && actions[0].err != None then actions[0].n else 0) + Uncounted(actions[1..])
  }

  predicate Copies(a: Action) { a.Read? || a.Write? }

  lemma {:induction false} NoMoreCopying(s: State, actions: seq<Action>)
    requires CanRun(s, actions) && s.pipe.phase != Reading && !s.pipe.phase.Writing?
    ensures Uncounted(actions) == 0 && forall a :: a in actions ==> !Copies(a)
    ensures Run(s, actions).dst.outgoing == s.dst.outgoing && Run(s, actions).pipe.written == s.pipe.written
    decreases |actions|
  {
    if actions != [] { NoMoreCopying(Take(s, actions[0]), actions[1..]); }
  }

  /** Delivered and counted bytes differ by what a failed write delivered, and nothing is copied after such a write. */
  lemma {:induction false} CountedButForLastWrite(s: State, actions: seq<Action>)
    requires CanRun(s, actions) && Inv(s)
    ensures |Run(s, actions).dst.outgoing| - Run(s, actions).pipe.written ==
      |s.dst.outgoing| - s.pipe.written + Uncounted(actions)
    ensures forall i, j :: 0 <= i < j < |actions| && actions[i].Write? && actions[i].err != None ==> !Copies(actions[j])
    decreases |actions|
  {
    if actions != [] {
      var a, t := actions[0], Take(s, actions[0]);
      TakeKeepsInv(s, a);
      CountedButForLastWrite(t, actions[1..]);
      if a.Write? && a.err != None {
        NoMoreCopying(t, actions[1..]);
        forall j | 0 < j < |actions| ensures !Copies(actions[j]) { assert actions[j] in actions[1..]; }
      }
      forall i, j | 0 <= i < j < |actions| && actions[i].Write? && actions[i].err != None ensures !Copies(actions[j]) {
        if i > 0 { assert actions[i] == actions[1..][i - 1] && actions[j] == actions[1..][j - 1]; }
      }
    }
  }

  // ---------- Which errors are reported ----------

  /** What the environment may answer without making an error of the pipe. */
  predicate Harmless(a: Action) {
    match a
    case Read(_, err) => err == None || err == Some(Eof)
    case Write(_, err) => err == None
    case CloseWrite(err) => err == None || err == Some(Closed)
    case CloseRead(err) => err == None || err == Some(Closed)
    case Report => true
  }

  /** No error waits to be reported. */
  predicate Unharmed(phase: Phase) {
    match phase
    case Reading => true
    case Writing(_, readErr) => readErr == None || readErr == Some(Eof)
    case ClosingWrite(err) => err == None
    case ClosingRead(err) => err == None
    case Reporting(err) => err == None
    case Done(r) => r.err == None
  }

  /** A write was short: some bytes that were read will never be counted. */
  predicate Short(s: State) { s.pipe.phase != Reading && !s.pipe.phase.Writing? && s.pipe.written < s.src.pos }

  lemma {:induction false} HarmIsKept(s: State, actions: seq<Action>)
    requires Inv(s) && CanRun(s, actions) && Unharmed(Run(s, actions).pipe.phase)
    ensures Unharmed(s.pipe.phase) && forall a :: a in actions ==> Harmless(a)
    decreases |actions|
  {
    if actions != [] {
      TakeKeepsInv(s, actions[0]);
      HarmIsKept(Take(s, actions[0]), actions[1..]);
    }
  }

  lemma {:induction false} HarmlessIsClean(s: State, actions: seq<Action>)
    requires Inv(s) && CanRun(s, actions) && (Unharmed(s.pipe.phase) || Short(s))
    requires forall a :: a in actions ==> Harmless(a)
    ensures Unharmed(Run(s, actions).pipe.phase) || Short(Run(s, actions))
    decreases |actions|
  {
    if actions != [] {
      assert Harmless(actions[0]);
      TakeKeepsInv(s, actions[0]);
      HarmlessIsClean(Take(s, actions[0]), actions[1..]);
    }
  }

  /**
   * The report is without error exactly when no read, write or half-close went wrong, a socket closed already aside,
   * and every byte of the source was counted; what went wrong before a later success is not forgotten.
   */
  lemma NoErrorExactly(s: State, actions: seq<Action>)
    requires Starts(s) && CanRun(s, actions) && Run(s, actions).pipe.phase.Done?
    ensures Run(s, actions).pipe.phase.result.err == None <==>
              (forall a :: a in actions ==> Harmless(a)) && Run(s, actions).pipe.written == |s.src.incoming|
  {
    RunKeepsInv(s, actions);
    SourceStays(s, actions);
    if Unharmed(Run(s, actions).pipe.phase) { HarmIsKept(s, actions); }
    if forall a :: a in actions ==> Harmless(a) { HarmlessIsClean(s, actions); }
  }

  // ---------- Which error is reported ----------

  /** What an answer of the environment is as an error: the end of the stream is none, nor is a socket closed before. */
  function ErrorOf(a: Action): Option<Error> {
    match a
    case Read(_, err) => if err == Some(Eof) then None else err
    case Write(_, err) => err
    case CloseWrite(err) => if err == Some(Closed) then None else err
    case CloseRead(err) => if err == Some(Closed) then None else err
    case Report => None
  }

  /** A write of n bytes that put fewer on the wire is an error of its own. */
  function WriteError(n: nat, w: Action): Option<Error>
    requires w.Write?
  {
    if w.err == None && w.n < n then Some(ShortWrite) else w.err
  }

  /** The errors of a run in the order they are looked at: that of a read only after that of the write of its bytes. */
  function Errors(actions: seq<Action>): seq<Option<Error>> {
    if actions == [] then []
    else if actions[0].Read? && actions[0].n > 0 && |actions| > 1 && actions[1].Write? then
      [WriteError(actions[0].n, actions[1]), ErrorOf(actions[0])] + Errors(actions[2..])
    else [ErrorOf(actions[0])] + Errors(actions[1..])
  }

  /** The first that is one. */
  function FirstOf(errors: seq<Option<Error>>): (e: Option<Error>)
    ensures e == None <==> forall i :: 0 <= i < |errors| ==> errors[i] == None
    ensures e != None ==>
      exists i :: 0 <= i < |errors| && errors[i] == e && forall j :: 0 <= j < i ==> errors[j] == None
  {
    if errors == [] then None
    else if errors[0] != None then errors[0]
    else
      assert forall i :: 0 < i < |errors| ==> errors[i] == errors[1..][i - 1];
      FirstOf(errors[1..])
  }

  lemma FirstOfBoth(e: Option<Error>, f: Option<Error>, more: seq<Option<Error>>)
    ensures FirstOf([e] + more) == if e != None then e else FirstOf(more)
    ensures FirstOf([e, f] + more) == if e != None then e else if f != None then f else FirstOf(more)
  {
    assert ([e] + more)[1..] == more && ([e, f] + more)[1..] == [f] + more && ([f] + more)[1..] == more;
  }

  /** From the half-closes on, an error that there was stays, and else the first of theirs counts. */
  lemma ClosingReports(s: State, actions: seq<Action>)
    requires s.pipe.phase.ClosingWrite? && CanRun(s, actions) && Run(s, actions).pipe.phase.Done?
    ensures Run(s, actions).pipe.phase.result.err ==
      if s.pipe.phase.err != None then s.pipe.phase.err else FirstOf(Errors(actions))
  {
    var t, more := Take(s, actions[0]), actions[1..];
    assert CanRun(t, more) && t.pipe.phase.ClosingRead?;
    var u, last := Take(t, more[0]), more[1..];
    assert CanRun(u, last) && u.pipe.phase.Reporting? && Run(u, last) == Run(s, actions);
    DoneStays(Take(u, last[0]), last[1..]);
    assert Run(Take(u, last[0]), []) == Run(s, actions);
    FirstOfBoth(ErrorOf(actions[0]), None, Errors(more));
    FirstOfBoth(ErrorOf(more[0]), None, Errors(last));
    FirstOfBoth(None, None, Errors([]));
  }

  lemma DoneStays(s: State, actions: seq<Action>)
    requires CanRun(s, actions) && s.pipe.phase.Done?
    ensures actions == []
  {
  }

  /** A run to a report reports the first of its errors, in the order they are looked at, and none if there is none. */
  lemma {:induction false} FirstErrorIsReported(s: State, actions: seq<Action>)
    requires s.pipe.phase == Reading && CanRun(s, actions) && Run(s, actions).pipe.phase.Done?
    ensures Run(s, actions).pipe.phase.result.err == FirstOf(Errors(actions))
    decreases |actions|
  {
    var a, rest := actions[0], actions[1..];
    var t := Take(s, a);
    if a.n == 0 {
      FirstOfBoth(ErrorOf(a), None, Errors(rest));
      ClosingReports(t, rest);
    } else {
      var w := rest[0];
      var u := Take(t, w);
      assert actions[2..] == rest[1..] && actions[1] == w;
      FirstOfBoth(WriteError(a.n, w), ErrorOf(a), Errors(rest[1..]));
      if u.pipe.phase == Reading { FirstErrorIsReported(u, rest[1..]); } else { ClosingReports(u, rest[1..]); }
    }
  }

  // ---------- Which is not always the first that occurred ----------

  /** The errors of a run in the order they occurred; a short write is none of them. */
  function Occurred(actions: seq<Action>): seq<Option<Error>> {
    if actions == [] then [] else [ErrorOf(actions[0])] + Occurred(actions[1..])
  }

  /** The first error that occurred, or else a short write, if bytes that were read were never counted. */
  function FirstOccurred(actions: seq<Action>, end: State): Option<Error> {
    if FirstOf(Occurred(actions)) != None then FirstOf(Occurred(actions))
    else if end.pipe.written < end.src.pos then Some(ShortWrite)
    else None
  }

  /**
   * A read brought an error along with bytes whose write failed with another; or a write fell short, and a half-close
   * failed after it.
   */
  predicate OvertakenAtOnce(actions: seq<Action>) {
    && |actions| > 1 && actions[0].Read? && actions[0].n > 0 && actions[1].Write?
    && var error := WriteError(actions[0].n, actions[1]);
       if ErrorOf(actions[0]) != None then error !in {None, ErrorOf(actions[0])}
       else error != None && actions[1].err == None && FirstOf(Occurred(actions[2..])) !in {None, Some(ShortWrite)}
  }

  predicate Overtaken(actions: seq<Action>) {
    actions != [] && (OvertakenAtOnce(actions) || Overtaken(actions[1..]))
  }

  lemma {:induction false} ClosingOccurs(s: State, actions: seq<Action>)
    requires CanRun(s, actions) && s.pipe.phase != Reading && !s.pipe.phase.Writing?
    ensures Occurred(actions) == Errors(actions) && !Overtaken(actions)
    ensures Run(s, actions).pipe.written == s.pipe.written && Run(s, actions).src.pos == s.src.pos
    decreases |actions|
  {
    if actions != [] { ClosingOccurs(Take(s, actions[0]), actions[1..]); }
  }

  /** The last read and its write, after which the half-closes follow. */
  lemma LastExchange(s: State, actions: seq<Action>)
    requires Inv(s) && s.pipe.phase == Reading && CanRun(s, actions) && Run(s, actions).pipe.phase.Done?
    requires |actions| > 1 && actions[0].Read? && actions[0].n > 0 && Enabled(Take(s, actions[0]), actions[1])
    requires Take(Take(s, actions[0]), actions[1]).pipe.phase.ClosingWrite?
    ensures Run(s, actions).pipe.phase.result.err == FirstOccurred(actions, Run(s, actions)) <==> !Overtaken(actions)
  {
    FirstErrorIsReported(s, actions);
    var a, rest := actions[0], actions[1..];
    var t := Take(s, a);
    var w, more := rest[0], rest[1..];
    assert actions[2..] == more && actions[1] == w && !OvertakenAtOnce(rest);
    FirstOfBoth(ErrorOf(a), None, Occurred(rest));
    FirstOfBoth(ErrorOf(w), None, Occurred(more));
    FirstOfBoth(WriteError(a.n, w), ErrorOf(a), Errors(more));
    ClosingOccurs(Take(t, w), more);
  }

  /** The error reported is the first that occurred exactly when none was overtaken. */
  lemma {:induction false} FirstOccurredExactly(s: State, actions: seq<Action>)
    requires Inv(s) && s.pipe.phase == Reading && CanRun(s, actions) && Run(s, actions).pipe.phase.Done?
    ensures Run(s, actions).pipe.phase.result.err == FirstOccurred(actions, Run(s, actions)) <==> !Overtaken(actions)
    decreases |actions|
  {
    var t := Take(s, actions[0]);
    TakeKeepsInv(s, actions[0]);
    if actions[0].n == 0 {
      LastRead(s, actions);
    } else {
      var u, more := Take(t, actions[1..][0]), actions[1..][1..];
      TakeKeepsInv(t, actions[1..][0]);
      assert actions[2..] == more && actions[1] == actions[1..][0];
      if u.pipe.phase == Reading {
        FirstErrorIsReported(u, more);
        FirstOccurredExactly(u, more);
        OneExchange(actions[0], actions[1], more);
        assert actions == [actions[0], actions[1]] + more;
      } else {
        LastExchange(s, actions);
      }
    }
  }

  lemma LastRead(s: State, actions: seq<Action>)
    requires Inv(s) && s.pipe.phase == Reading && CanRun(s, actions) && Run(s, actions).pipe.phase.Done?
    requires actions[0].Read? && actions[0].n == 0
    ensures Run(s, actions).pipe.phase.result.err == FirstOccurred(actions, Run(s, actions)) && !Overtaken(actions)
  {
    FirstErrorIsReported(s, actions);
    FirstOfBoth(ErrorOf(actions[0]), None, Occurred(actions[1..]));
    FirstOfBoth(ErrorOf(actions[0]), None, Errors(actions[1..]));
    ClosingOccurs(Take(s, actions[0]), actions[1..]);
  }

  /** A read and its write in which nothing went wrong say nothing of the error. */
  lemma OneExchange(a: Action, w: Action, more: seq<Action>)
    requires a.Read? && a.n > 0 && w.Write? && ErrorOf(a) == None && WriteError(a.n, w) == None
    ensures FirstOf(Occurred([a, w] + more)) == FirstOf(Occurred(more))
    ensures Overtaken([a, w] + more) == Overtaken(more)
  {
    var actions, rest := [a, w] + more, [w] + more;
    assert actions[1..] == rest && rest[1..] == more;
    FirstOfBoth(None, None, Occurred(rest));
    FirstOfBoth(None, None, Occurred(more));
    assert !OvertakenAtOnce(rest) && !OvertakenAtOnce(actions);
  }

  /** One byte, read along with a time-out and then not written: the failed write is reported. */
  lemma WriteOvertakesRead(s: State) returns (actions: seq<Action>)
    requires Starts(s) && |s.src.incoming| > 0
    ensures CanRun(s, actions) && Run(s, actions).pipe.phase.Done?
    ensures Run(s, actions).pipe.phase.result.err == Some(NotConnected)
    ensures |actions| > 1 && ErrorOf(actions[0]) == Some(Timeout) && ErrorOf(actions[1]) == Some(NotConnected)
  {
    RunAppend(s, [], Read(1, Some(Timeout)));
    actions := [] + [Read(1, Some(Timeout))];
    RunAppend(s, actions, Write(0, Some(NotConnected)));
    actions := actions + [Write(0, Some(NotConnected))];
    RunAppend(s, actions, CloseWrite(None));
    actions := actions + [CloseWrite(None)];
    RunAppend(s, actions, CloseRead(None));
    actions := actions + [CloseRead(None)];
    RunAppend(s, actions, Report);
    actions := actions + [Report];
  }

  // ---------- Runs end, and end in a report ----------

  function Rank(s: State): nat {
    var left := if s.src.pos <= |s.src.incoming| then |s.src.incoming| - s.src.pos else 0;
    match s.pipe.phase
    case Reading => 2 * left + 5
    case Writing(_, _) => 2 * left + 6
    case ClosingWrite(_) => 3
    case ClosingRead(_) => 2
    case Reporting(_) => 1
    case Done(_) => 0
  }

  lemma {:induction false} RunLowersRank(s: State, actions: seq<Action>)
    requires CanRun(s, actions)
    ensures |actions| + Rank(Run(s, actions)) <= Rank(s)
    decreases |actions|
  {
    if actions != [] { RunLowersRank(Take(s, actions[0]), actions[1..]); }
  }

  /** A pipe takes at most two steps a byte and five more; when it can take none it has reported, both halves closed. */
  lemma RunsEnd(s: State, actions: seq<Action>)
    requires Starts(s) && CanRun(s, actions)
    ensures |actions| <= 2 * |s.src.incoming| + 5
    ensures (forall a :: !Enabled(Run(s, actions), a)) <==> Run(s, actions).pipe.phase.Done?
    ensures Run(s, actions).pipe.phase.Done? ==> Run(s, actions).src.readShut && Run(s, actions).dst.writeShut
  {
    RunLowersRank(s, actions);
    RunKeepsInv(s, actions);
    HalvesShut(s, actions);
    var t := Run(s, actions);
    NextIsPossible(t);
  }

  lemma NextIsPossible(s: State)
    requires Inv(s)
    ensures !s.pipe.phase.Done? ==> Enabled(s, NextAction(s))
  {
  }

  /** Something a pipe that has not reported can always do. */
  function NextAction(s: State): Action {
    match s.pipe.phase
    case Reading => Read(0, Some(Timeout))
    case Writing(_, _) => Write(0, Some(Timeout))
    case ClosingWrite(_) => CloseWrite(None)
    case ClosingRead(_) => CloseRead(None)
    case _ => Report
  }

  lemma {:induction false} HalvesShut(s: State, actions: seq<Action>)
    requires CanRun(s, actions) && ShutInOrder(s)
    ensures ShutInOrder(Run(s, actions))
    decreases |actions|
  {
    if actions != [] { HalvesShut(Take(s, actions[0]), actions[1..]); }
  }

  predicate ShutInOrder(s: State) {
    && (s.pipe.phase.ClosingRead? || s.pipe.phase.Reporting? || s.pipe.phase.Done? ==> s.dst.writeShut)
    && (s.pipe.phase.Reporting? || s.pipe.phase.Done? ==> s.src.readShut)
  }
}
