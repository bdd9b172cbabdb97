/** The MongoDB reader and responder, on a connection whose bytes arrive in any chunks. */
module MongoDB {
  import opened Wrappers
  import opened Sequences
  import opened Addresses
  import opened Pipes
  import opened LittleEndian
  import opened Detect
  import opened Peeking

  datatype Header = Header(messageLength: int, requestID: int, responseTo: int, opCode: int)

  const HEADER_SIZE: nat := 16
  const OP_MSG: int := 2013

  datatype Direction = Inbound | Outbound

  datatype LogEntry = LogEntry(direction: Direction, header: Header, payload: Bytes, opCode: string)

  /** The name of an op code, and nothing for a code that has none. */
  function NameOf(opCode: int): string { if opCode in OP_CODE_NAMES then OP_CODE_NAMES[opCode] else "" }

  /** The codes that have a name are those the classifier looks for, and no two have the same. */
  lemma NamesAreExact(code: int, other: int)
    ensures NameOf(code) != "" <==> OpCode(code)
    ensures NameOf(code) == NameOf(other) != "" ==> code == other
  {
    SameOpCodes(code);
    SameOpCodes(other);
  }

  // ---------- The header codec ----------

  predicate HeaderFits(h: Header) {
    Int32(h.messageLength) && Int32(h.requestID) && Int32(h.responseTo) && Int32(h.opCode)
  }

  function Encode(h: Header): (b: Bytes)
    requires HeaderFits(h)
    ensures |b| == HEADER_SIZE
  {
    Put(h.messageLength) + Put(h.requestID) + Put(h.responseTo) + Put(h.opCode)
  }

  function Decode(b: Bytes): (h: Header)
    requires |b| >= HEADER_SIZE
    ensures HeaderFits(h)
  {
    Header(I32(b[..4]), I32(b[4..8]), I32(b[8..12]), I32(b[12..16]))
  }

  lemma EncodeThenDecode(h: Header, rest: Bytes)
    requires HeaderFits(h)
    ensures Decode(Encode(h) + rest) == h
  {
    var b := Encode(h) + rest;
    assert b[..4] == Put(h.messageLength) && b[4..8] == Put(h.requestID);
    assert b[8..12] == Put(h.responseTo) && b[12..16] == Put(h.opCode);
    PutThenGet(h.messageLength);
    PutThenGet(h.requestID);
    PutThenGet(h.responseTo);
    PutThenGet(h.opCode);
  }

  lemma DecodeThenEncode(b: Bytes)
    requires |b| == HEADER_SIZE
    ensures Encode(Decode(b)) == b
  {
    GetThenPut(b[..4]);
    GetThenPut(b[4..8]);
    GetThenPut(b[8..12]);
    GetThenPut(b[12..16]);
    assert b == b[..4] + b[4..8] + b[8..12] + b[12..16];
  }

  /** The fields stand in the order of the wire protocol, each with its least significant byte first. */
  lemma HeaderLayout(rest: Bytes)
    ensures Decode([16, 0, 0, 0, 2, 0, 0, 0, 3, 0, 0, 0, 0xdd, 7, 0, 0] + rest) == Header(16, 2, 3, 2013)
  {
    var b: Bytes := [16, 0, 0, 0, 2, 0, 0, 0, 3, 0, 0, 0, 0xdd, 7, 0, 0] + rest;
    assert b[..4] == [16, 0, 0, 0] && b[4..8] == [2, 0, 0, 0];
    assert b[8..12] == [3, 0, 0, 0] && b[12..16] == [0xdd, 7, 0, 0];
    assert U32([16, 0, 0, 0]) == 16 && U32([2, 0, 0, 0]) == 2 && U32([3, 0, 0, 0]) == 3;
    assert U32([0xdd, 7, 0, 0]) == 2013;
  }

  // ---------- The frames of a stream ----------

  /** What the front of a stream is, by its first header alone. */
  datatype Front = Empty | Partial | BadLength(length: int) | Unsliceable(length: int) | Frame(message: Bytes)

  /** Lengths 1 to 15 pass the guard but leave no room for the header that has been read. */
  function FrontOf(stream: Bytes): Front {
    if stream == [] then Empty
    else if |stream| < HEADER_SIZE then Partial
    else
      var length := I32(stream[..4]);
      if length <= 0 || length > MAX_MESSAGE then BadLength(length)
      else if length < HEADER_SIZE then Unsliceable(length)
      else if |stream| < length then Partial
      else Frame(stream[..length])
  }

  /** A message as a MongoDB client sends it: its header states its size. */
  predicate Message(m: Bytes) {
    HEADER_SIZE <= |m| <= MAX_MESSAGE && I32(m[..4]) == |m|
  }

  type Msg = m: Bytes | Message(m) witness [16, 0, 0, 0, 0, 0, 0, 0, 0, 0, 0, 0, 0, 0, 0, 0]

  /** The guard lets the lengths 1 to 15 through to the slice they are too short for, and so does the classifier. */
  lemma GuardedButUnsliceable(stream: Bytes)
    requires MongoHeader(stream)
    ensures FrontOf(stream).Unsliceable? <==> I32(stream[..4]) < HEADER_SIZE
    ensures !FrontOf(stream).BadLength? && !FrontOf(stream).Empty?
    ensures var s: Bytes := [15, 0, 0, 0, 0, 0, 0, 0, 0, 0, 0, 0, 0xdd, 7, 0, 0];
      MongoHeader(s) && FrontOf(s) == Unsliceable(15)
  {
    var s: Bytes := [15, 0, 0, 0, 0, 0, 0, 0, 0, 0, 0, 0, 0xdd, 7, 0, 0];
    assert s[..4] == [15, 0, 0, 0] && s[12..16] == [0xdd, 7, 0, 0];
    assert U32([15, 0, 0, 0]) == 15 && U32([0xdd, 7, 0, 0]) == 2013;
  }

  lemma FrontIsMessage(stream: Bytes)
    requires FrontOf(stream).Frame?
    ensures Message(FrontOf(stream).message) && stream == FrontOf(stream).message + stream[|FrontOf(stream).message|..]
  {
    assert stream[..I32(stream[..4])][..4] == stream[..4];
  }

  lemma MessageIsFront(m: Msg, rest: Bytes)
    ensures FrontOf(m + rest) == Frame(m) && (m + rest)[|m|..] == rest
  {
    assert (m + rest)[..4] == m[..4] && (m + rest)[..|m|] == m;
  }

  function Concat(ms: seq<Msg>): Bytes {
    if ms == [] then [] else ms[0] + Concat(ms[1..])
  }

  lemma {:induction false} ConcatSnoc(ms: seq<Msg>, m: Msg)
    ensures Concat(ms + [m]) == Concat(ms) + m
  {
    if ms == [] {
      assert (ms + [m])[1..] == [];
    } else {
      ConcatSnoc(ms[1..], m);
      assert (ms + [m])[1..] == ms[1..] + [m];
    }
  }

  /** Messages can be told apart in their concatenation: there is one way to cut a stream into messages. */
  lemma {:induction false} FramesAreUnique(ms: seq<Msg>, ns: seq<Msg>, rest: Bytes)
    requires Concat(ms) == Concat(ns) + rest
    ensures |ns| <= |ms| && ns == ms[..|ns|] && rest == Concat(ms[|ns|..])
  {
    if ns == [] {
      assert ms[0..] == ms;
    } else {
      assert Concat(ns) + rest == ns[0] + (Concat(ns[1..]) + rest);
      MessageIsFront(ns[0], Concat(ns[1..]) + rest);
      if ms != [] {
        MessageIsFront(ms[0], Concat(ms[1..]));
        FramesAreUnique(ms[1..], ns[1..], rest);
        assert ms[|ns|..] == ms[1..][|ns| - 1..];
      }
    }
  }

  // ---------- The response ----------

  const DOCUMENT: Bytes := [0x11, 0, 0, 0, 0x01, 0x6f, 0x6b, 0, 0, 0, 0, 0, 0, 0, 0xf0, 0x3f, 0]

  /** Buffer writes, then the length patched over the placeholder. */
  method CreateOkResponse(request: Header) returns (header: Header, response: Bytes)
    requires HeaderFits(request)
    ensures header == ResponseTo(request) && response == Response(request)
  {
    header := Header(0, Wrap(request.requestID + 1), request.requestID, OP_MSG);
    var buffer := Encode(header);
    var flagBits := 0;
    buffer := buffer + Put(flagBits);
    buffer := buffer + [0];
    buffer := buffer + DOCUMENT;
    var messageLength := |buffer|;
    response := Put(messageLength) + buffer[4..];
    header := header.(messageLength := messageLength);
  }

  function ResponseTo(request: Header): Header
    requires HeaderFits(request)
  {
    Header(38, Wrap(request.requestID + 1), request.requestID, OP_MSG)
  }

  function Response(request: Header): Bytes
    requires HeaderFits(request)
  {
    Encode(ResponseTo(request)) + Put(0) + [0] + DOCUMENT
  }

  /**
   * Whatever the request, the response is 38 bytes that decode to the header returned with them, its document
   * states its own size, and a reader of MongoDB messages takes the whole response for one message.
   */
  lemma ResponseReads(request: Header, rest: Bytes)
    requires HeaderFits(request)
    ensures |Response(request)| == 38 && Decode(Response(request)) == ResponseTo(request)
    ensures ResponseTo(request).requestID == if request.requestID == TWO_31 - 1 then -TWO_31 else request.requestID + 1
    ensures I32(Response(request)[21..25]) == |Response(request)[21..]|
    ensures FrontOf(Response(request) + rest) == Frame(Response(request))
  {
    ResponseParts(request);
    EncodeThenDecode(ResponseTo(request), Put(0) + [0] + DOCUMENT);
    ResponseIsMessage(request);
    MessageIsFront(Response(request), rest);
  }

  /** A 64-bit integer of eight bytes, the least significant first. */
  function U64(b: Bytes): int
    requires |b| == 8
  {
    U32(b[..4]) + TWO_32 * U32(b[4..])
  }

  /**
   * What the response says: an OP_MSG without flags, of one section of kind 0, whose document of 17 bytes has one
   * element, of type 1 and named ok, with the 64-bit floating-point number 1.0.
   */
  lemma ResponseSaysOk(request: Header)
    requires HeaderFits(request)
    ensures var r := Response(request);
      && |r| == 38 && Decode(r).opCode == 2013 && NameOf(2013) == "OP_MSG" && Decode(r).responseTo == request.requestID
      && I32(r[16..20]) == 0 && r[20] == 0 && I32(r[21..25]) == 17
      && r[25] == 1 && r[26..29] == Ascii("ok") + [0] && U64(r[29..37]) == 0x3ff0_0000_0000_0000 && r[37] == 0
  {
    var r := Response(request);
    ResponseParts(request);
    ResponseReads(request, []);
    PutThenGet(0);
    DocumentSaysOk(r);
    assert r[16..20] == Put(0);
    assert r[20] == 0;
  }

  lemma DocumentSaysOk(r: Bytes)
    requires |r| == 38 && r[21..] == DOCUMENT
    ensures I32(r[21..25]) == 17 && r[25] == 1 && r[26..29] == Ascii("ok") + [0]
    ensures U64(r[29..37]) == 0x3ff0_0000_0000_0000 && r[37] == 0
  {
    assert forall k :: 21 <= k < 38 ==> r[k] == DOCUMENT[k - 21];
    var size, name := r[21..25], r[26..29];
    assert size == [0x11, 0, 0, 0] && name == [0x6f, 0x6b, 0] && Ascii("ok") == [0x6f, 0x6b];
    var number := r[29..37];
    assert number == [0, 0, 0, 0, 0, 0, 0xf0, 0x3f];
    assert number[..4] == [0, 0, 0, 0] && number[4..] == [0, 0, 0xf0, 0x3f];
    assert U32([0, 0, 0, 0]) == 0 && U32([0, 0, 0xf0, 0x3f]) == 0x3ff0_0000;
    assert U32([0x11, 0, 0, 0]) == 17;
  }

  lemma ResponseIsMessage(request: Header)
    requires HeaderFits(request)
    ensures Message(Response(request)) && U32([0x11, 0, 0, 0]) == 17
  {
    ResponseParts(request);
    EncodeThenDecode(ResponseTo(request), Put(0) + [0] + DOCUMENT);
  }

  lemma ResponseParts(request: Header)
    requires HeaderFits(request)
    ensures |Response(request)| == 38 && Response(request) == Encode(ResponseTo(request)) + (Put(0) + [0] + DOCUMENT)
    ensures Response(request)[21..] == DOCUMENT && Response(request)[21..25] == [0x11, 0, 0, 0]
  {
    assert DOCUMENT[..4] == [0x11, 0, 0, 0];
    assert Response(request)[21..] == DOCUMENT && Response(request)[21..25] == DOCUMENT[..4];
  }

  // ---------- Reading ----------

  /** The error of reading n bytes off a stream on which nothing goes wrong. */
  function FullError(stream: Bytes, n: nat): Option<Error> {
    if |stream| >= n then None else if stream == [] then Some(Eof) else Some(UnexpectedEof)
  }

  /** io.ReadFull: n bytes; fewer only at the end of the stream, or with an error of the connection. */
  method ReadFull(conn: BufferedConn, n: nat) returns (buf: Bytes, err: Option<Error>)
    requires conn.Valid()
    modifies conn.repr
    ensures conn.Valid() && old(conn.Ahead()) == buf + conn.Ahead() && conn.socket.outgoing == old(conn.socket.outgoing)
    ensures |buf| <= n && (err == None <==> |buf| == n)
    ensures err == FullError(old(conn.Ahead()), n) || (err.Some? && err != Some(Eof) && !conn.socket.Undisturbed())
  {
    buf, err := [], None;
    while |buf| < n && err == None
      invariant conn.Valid() && old(conn.Ahead()) == buf + conn.Ahead() && |buf| <= n
      invariant conn.socket.outgoing == old(conn.socket.outgoing)
      invariant err == Some(Eof) ==> conn.Ahead() == []
      invariant err == None || err == Some(Eof) || !conn.socket.Undisturbed()
      decreases if err == None then 1 else 0, n - |buf|
    {
      var p;
      p, err := conn.Read(n - |buf|);
      Regroup(buf, p, conn.Ahead());
      buf := buf + p;
    }
    if |buf| >= n {
      err := None;
    } else if |buf| > 0 && err == Some(Eof) {
      err := Some(UnexpectedEof);
    }
  }

  datatype ReadResult = Ok(message: Msg) | Failed(err: Error) | Invalid(length: int) | Panicked

  /**
   * What a read makes of a stream on which nothing goes wrong. A header whose body never came at all ends the loop
   * like the end of the stream.
   */
  function ReadOf(stream: Bytes): ReadResult {
    match FrontOf(stream)
    case Empty => Failed(Eof)
    case Partial => Failed(if |stream| == HEADER_SIZE then Eof else UnexpectedEof)
    case BadLength(length) => Invalid(length)
    case Unsliceable(_) => Panicked
    case Frame(message) => FrontIsMessage(stream); Ok(message)
  }

  datatype End = NoAddress | TimedOut | Ended(result: ReadResult) | WriteFailed

  function Request(m: Msg): LogEntry { LogEntry(Inbound, Decode(m), m, NameOf(Decode(m).opCode)) }

  function Answer(m: Msg): LogEntry { LogEntry(Outbound, ResponseTo(Decode(m)), Response(Decode(m)), "OP_MSG") }

  function Reads(ms: seq<Msg>): (es: seq<LogEntry>)
    ensures |es| == |ms| && forall k :: 0 <= k < |ms| ==> es[k] == Request(ms[k])
  {
    seq(|ms|, k requires 0 <= k < |ms| => Request(ms[k]))
  }

  function Answers(ms: seq<Msg>): (es: seq<LogEntry>)
    ensures |es| == |ms| && forall k :: 0 <= k < |ms| ==> es[k] == Answer(ms[k])
  {
    seq(|ms|, k requires 0 <= k < |ms| => Answer(ms[k]))
  }

  /** First a read, then its write, and so on. */
  function Weave(ins: seq<LogEntry>, outs: seq<LogEntry>): seq<LogEntry>
    requires |ins| == |outs|
  {
    if ins == [] then []
    else
      var n := |ins| - 1;
      Weave(ins[..n], outs[..n]) + [ins[n], outs[n]]
  }

  /** What the log holds after these messages have been read and answered. */
  function Log(ms: seq<Msg>): seq<LogEntry> { Weave(Reads(ms), Answers(ms)) }

  lemma {:induction false} WeaveAt(ins: seq<LogEntry>, outs: seq<LogEntry>, k: nat)
    requires k < |ins| == |outs|
    ensures |Weave(ins, outs)| == 2 * |ins|
    ensures Weave(ins, outs)[2 * k] == ins[k] && Weave(ins, outs)[2 * k + 1] == outs[k]
    decreases |ins|
  {
    var n := |ins| - 1;
    if n > 0 { WeaveAt(ins[..n], outs[..n], if k < n then k else 0); }
  }

  lemma WeaveSnoc(ins: seq<LogEntry>, outs: seq<LogEntry>, i: LogEntry, o: LogEntry)
    requires |ins| == |outs|
    ensures Weave(ins + [i], outs + [o]) == Weave(ins, outs) + [i, o]
  {
  }

  lemma LogSnoc(ms: seq<Msg>, m: Msg)
    ensures Log(ms + [m]) == Log(ms) + [Request(m), Answer(m)]
  {
    assert Reads(ms + [m]) == Reads(ms) + [Request(m)];
    assert Answers(ms + [m]) == Answers(ms) + [Answer(m)];
    WeaveSnoc(Reads(ms), Answers(ms), Request(m), Answer(m));
  }

  lemma AnswerReads(m: Msg)
    ensures Answer(m).header.responseTo == Request(m).header.requestID
    ensures Message(Answer(m).payload) && Decode(Answer(m).payload) == Answer(m).header
  {
    ResponseReads(Decode(m), []);
    assert Response(Decode(m)) + [] == Response(Decode(m));
    FrontIsMessage(Response(Decode(m)));
  }

  /** Reads and writes alternate, and the k-th write is a message of its own that answers the k-th read. */
  lemma LogAlternates(ms: seq<Msg>, k: nat)
    requires k < |ms|
    ensures |Log(ms)| == 2 * |ms| && Log(ms)[2 * k].payload == ms[k] && Log(ms)[2 * k].header == Decode(ms[k])
    ensures Log(ms)[2 * k].direction == Inbound && Log(ms)[2 * k + 1].direction == Outbound
    ensures Log(ms)[2 * k + 1].header.responseTo == Log(ms)[2 * k].header.requestID
    ensures Message(Log(ms)[2 * k + 1].payload) && Decode(Log(ms)[2 * k + 1].payload) == Log(ms)[2 * k + 1].header
  {
    WeaveAt(Reads(ms), Answers(ms), k);
    AnswerReads(ms[k]);
  }

  /** The responses to these messages, one after the other. */
  function Replies(ms: seq<Msg>): Bytes {
    if ms == [] then [] else Replies(ms[..|ms| - 1]) + Response(Decode(ms[|ms| - 1]))
  }

  /**
   * How the loop may end after the messages ms, with left not yet read as messages: because of what left is, or of
   * an error that only the connection makes.
   */
  predicate Concluded(end: End, events: seq<LogEntry>, ms: seq<Msg>, left: Bytes) {
    if end == WriteFailed then ms != [] && events == Log(ms[..|ms| - 1]) + [Request(ms[|ms| - 1])]
    else
      && events == Log(ms)
      && (end.Ended? ==>
        !end.result.Ok? && (end.result == ReadOf(left) || (end.result.Failed? && end.result.err != Eof)))
  }

  class Server {
    const conn: BufferedConn
    var events: seq<LogEntry>

    constructor (conn: BufferedConn)
      ensures this.conn == conn && events == []
    {
      this.conn, events := conn, [];
    }

    /** What the front of the stream is, under any chunking; any other answer is the connection's doing. */
    method Read() returns (r: ReadResult)
      requires conn.Valid() && this !in conn.repr
      modifies conn.repr
      ensures conn.Valid() && conn.socket.outgoing == old(conn.socket.outgoing)
      ensures r.Ok? ==> old(conn.Ahead()) == r.message + conn.Ahead()
      ensures r == ReadOf(old(conn.Ahead())) || (r.Failed? && r.err != Eof && !conn.socket.Undisturbed())
    {
      ghost var stream := conn.Ahead();
      var headerBytes, err := ReadFull(conn, HEADER_SIZE);
      if err != None { return Failed(err.value); }
      assert stream[..4] == headerBytes[..4];
      var length := Decode(headerBytes).messageLength;
      if length <= 0 || length > MAX_MESSAGE { return Invalid(length); }
      if length < HEADER_SIZE { return Panicked; }
      ghost var rest := conn.Ahead();
      var body;
      body, err := ReadFull(conn, length - HEADER_SIZE);
      if err != None { return Failed(err.value); }
      var message := headerBytes + body;
      Regroup(headerBytes, body, conn.Ahead());
      assert message[..4] == headerBytes[..4] && stream[..length] == message;
      r := Ok(message);
    }

    /** The response goes out, and into the log if the connection took it: all of it when nothing goes wrong. */
    method Write(header: Header, data: Bytes) returns (err: Option<Error>, ghost sent: nat)
      requires conn.Valid() && this !in conn.repr
      modifies this`events, conn.repr
      ensures conn.Valid() && conn.Ahead() == old(conn.Ahead())
      ensures sent <= |data| && conn.socket.outgoing == old(conn.socket.outgoing) + data[..sent]
      ensures conn.socket.Undisturbed() ==> err == None && sent == |data|
      ensures events ==
        if err == None then old(events) + [LogEntry(Outbound, header, data, NameOf(header.opCode))] else old(events)
    {
      var n;
      n, err := conn.Write(data);
      sent := n;
      if err != None { return; }
      events := events + [LogEntry(Outbound, header, data, NameOf(header.opCode))];
    }

    /** A message that has been read is logged and answered; without an answer only the message is logged. */
    method Respond(message: Msg) returns (ok: bool)
      requires conn.Valid() && this !in conn.repr
      modifies this`events, conn.repr
      ensures conn.Valid() && conn.Ahead() == old(conn.Ahead())
      ensures events == old(events) + if ok then [Request(message), Answer(message)] else [Request(message)]
      ensures old(conn.socket.outgoing) <= conn.socket.outgoing <= old(conn.socket.outgoing) + Response(Decode(message))
      ensures conn.socket.Undisturbed() ==>
        ok && conn.socket.outgoing == old(conn.socket.outgoing) + Response(Decode(message))
    {
      var header := Decode(message);
      events := events + [LogEntry(Inbound, header, message, NameOf(header.opCode))];
      var responseHeader, response := CreateOkResponse(header);
      var err;
      ghost var sent;
      err, sent := Write(responseHeader, response);
      assert sent == |response| ==> response[..sent] == response;
      ok := err == None;
    }

    /** HandleMongoDB: the stream is cut into messages from the front until the connection or the stream ends it. */
    method Handle(remote: string) returns (end: End, ghost ms: seq<Msg>, ghost left: Bytes)
      requires conn.Valid() && this !in conn.repr && events == []
      modifies this`events, conn.repr
      ensures old(conn.Ahead()) == Concat(ms) + left && Concluded(end, events, ms, left)
      ensures end == NoAddress <==> SplitHostPort(remote).Bad?
      ensures conn.socket.Undisturbed() && SplitHostPort(remote).Pair? ==>
        end == Ended(ReadOf(left)) && conn.socket.outgoing == old(conn.socket.outgoing) + Replies(ms)
    {
      ghost var stream, sent := conn.Ahead(), conn.socket.outgoing;
      ms, left := [], stream;
      if SplitHostPort(remote).Bad? { return NoAddress, ms, left; }
      while true
        invariant conn.Valid() && left == conn.Ahead() && stream == Concat(ms) + left && events == Log(ms)
        invariant conn.socket.Undisturbed() ==> conn.socket.outgoing == sent + Replies(ms)
        decreases |left|
      {
        var late := conn.SetDeadline();
        if late != None { return TimedOut, ms, left; }
        var r := Read();
        if !r.Ok? { return Ended(r), ms, left; }
        OneMore(stream, ms, r.message, conn.Ahead());
        Regroup(sent, Replies(ms), Response(Decode(r.message)));
        ms, left := ms + [r.message], conn.Ahead();
        var ok := Respond(r.message);
        if !ok { return WriteFailed, ms, left; }
      }
    }
  }

  /**
   * The whole exchange on a stream of messages, however it is chunked: no message but those is read, none makes the
   * handler panic or refuse its length, and when nothing goes wrong on the connection all of them are logged and
   * answered, on the wire too, and the loop ends at the end of the stream.
   */
  method HandleMessages(conn: BufferedConn, remote: string, ghost sent: seq<Msg>)
    returns (server: Server, end: End, ghost ms: seq<Msg>)
    requires conn.Valid() && conn.Ahead() == Concat(sent)
    modifies conn.repr
    ensures ms <= sent && (end != WriteFailed ==> server.events == Log(ms))
    ensures end.Ended? ==> end.result.Failed? && (end.result.err == Eof ==> ms == sent)
    ensures conn.socket.Undisturbed() && SplitHostPort(remote).Pair? ==>
      && end == Ended(Failed(Eof)) && server.events == Log(sent)
      && conn.socket.outgoing == old(conn.socket.outgoing) + Replies(sent)
  {
    server := new Server(conn);
    ghost var left;
    end, ms, left := server.Handle(remote);
    HandleRecovers(sent, ms, left);
  }

  /** One more message off the front of what was left. */
  lemma StreamSnoc(stream: Bytes, ms: seq<Msg>, m: Msg, left: Bytes)
    requires stream == Concat(ms) + (m + left)
    ensures stream == Concat(ms + [m]) + left
  {
    ConcatSnoc(ms, m);
    Regroup(Concat(ms), m, left);
  }

  lemma OneMore(stream: Bytes, ms: seq<Msg>, m: Msg, left: Bytes)
    requires stream == Concat(ms) + (m + left)
    ensures stream == Concat(ms + [m]) + left && Log(ms + [m]) == Log(ms) + [Request(m), Answer(m)]
    ensures (ms + [m])[..|ms|] == ms
  {
    StreamSnoc(stream, ms, m, left);
    LogSnoc(ms, m);
  }

  /** What is left of a stream of messages is a stream of messages, and reads as one or as the end of the stream. */
  lemma HandleRecovers(sent: seq<Msg>, ms: seq<Msg>, left: Bytes)
    requires Concat(sent) == Concat(ms) + left
    ensures ms <= sent && ReadOf(left) == if ms == sent then Failed(Eof) else Ok(sent[|ms|])
  {
    FramesAreUnique(sent, ms, left);
    if ms != sent {
      var rest := sent[|ms|..];
      assert rest[0] == sent[|ms|];
      MessageIsFront(rest[0], Concat(rest[1..]));
    }
  }
}
