/** The tcp handler: peek, classify, and hand the connection on. */
module Dispatch {
  import opened Wrappers
  import opened Pipes
  import opened Proxy
  import opened Peeking
  import opened LittleEndian
  import opened Detect

  datatype Handler = NoHandler | Http | Rdp | MongoDB | Fallback

  /** Whether each of the two parses gives an answer: a Spicy parse may also fail or time out. */
  datatype Parses = Parses(first: bool, second: bool)

  /** Whether a handler is the one for a stream of at least four bytes. */
  predicate Chosen(h: Handler, spicy: bool, parses: Parses, stream: Bytes) {
    && |stream| >= 4
    && (h == Http <==> spicy && parses.first && HttpWord(stream[..4]))
    && (h == Rdp <==> spicy && parses.first && stream[..4] == CONNECTION_REQUEST)
    && (h == MongoDB <==> spicy && parses.second && MongoHeader(stream))
    && (!spicy ==> h == Fallback)
  }

  /** Four bytes are needed, and sixteen if Spicy is on and has no answer on four. */
  predicate TooFew(spicy: bool, parses: Parses, stream: Bytes) {
    || |stream| < 4
    || (spicy && |stream| < 16 &&
        !(parses.first && (HttpWord(stream[..4]) || stream[..4] == CONNECTION_REQUEST)))
  }

  /** What the two classifications of the handler say of a stream. */
  lemma SamplesSay(stream: Bytes)
    requires |stream| >= 4
    ensures Detected(stream[..4]) == Some("http") <==> HttpWord(stream[..4])
    ensures Detected(stream[..4]) == Some("rdp") <==> stream[..4] == CONNECTION_REQUEST
    ensures |stream| >= 16 ==> (Detected(stream[..16]) == Some("mongodb") <==> MongoHeader(stream))
    ensures MongoHeader(stream) ==> !HttpWord(stream[..4]) && stream[..4] != CONNECTION_REQUEST
  {
    assert stream[..4][..4] == stream[..4];
    ClassesAreDisjoint(stream[..4]);
    ClassesAreDisjoint(stream);
    if |stream| >= 16 {
      var sample := stream[..16];
      assert sample[..4] == stream[..4];
      assert sample[12..16] == stream[12..16];
      DetectorMeetsHandler(sample);
    }
  }

  /** What the first sample's answer chooses, or leaves to the second. */
  lemma FirstChooses(parses: Parses, stream: Bytes, answer: Option<string>)
    requires |stream| >= 4 && answer == if parses.first then Detected(stream[..4]) else None
    ensures answer == Some("http") ==> Chosen(Http, true, parses, stream) && !TooFew(true, parses, stream)
    ensures answer == Some("rdp") ==> Chosen(Rdp, true, parses, stream) && !TooFew(true, parses, stream)
    ensures answer !in {Some("http"), Some("rdp")} ==> (TooFew(true, parses, stream) <==> |stream| < 16)
  {
    SamplesSay(stream);
  }

  lemma SecondChooses(parses: Parses, stream: Bytes, first: Option<string>, answer: Option<string>)
    requires |stream| >= 16 && first == if parses.first then Detected(stream[..4]) else None
    requires first !in {Some("http"), Some("rdp")}
    requires answer == if parses.second then Detected(stream[..16]) else None
    ensures Chosen(if answer == Some("mongodb") then MongoDB else Fallback, true, parses, stream)
  {
    SamplesSay(stream);
  }

  /** Wraps the connection, and peeks unless the read deadline cannot be set. */
  method Peek(conn: Conn, length: nat) returns (snip: Bytes, b: BufferedConn, err: Option<Error>)
    requires conn.pos <= |conn.incoming|
    modifies conn
    ensures fresh(b) && b.Valid() && b.repr == {b, conn} && b.socket == conn && conn.outgoing == old(conn.outgoing)
    ensures b.Ahead() == old(conn.incoming[conn.pos..])
    ensures snip <= b.Ahead() && (err == None ==> |snip| == length)
    ensures conn.Undisturbed() && length <= BUFFER_SIZE ==> (err == None <==> |b.Ahead()| >= length)
  {
    b := new BufferedConn(conn);
    err := b.SetDeadline();
    if err != None { return [], b, err; }
    snip, err := b.Peek(length);
  }

  /** The same over a connection that is buffered already; what it reads ahead is gone from the one below. */
  method PeekOver(below: BufferedConn, length: nat) returns (snip: Bytes, b: BufferedConn, err: Option<Error>)
    requires below.Valid()
    modifies below.repr
    ensures fresh(b) && b.Valid() && b.repr == {b} + below.repr && b.socket == below.socket
    ensures below.socket.outgoing == old(below.socket.outgoing)
    ensures below.Valid() && b.Ahead() == old(below.Ahead()) == b.held + below.Ahead()
    ensures snip <= b.held && (err == None ==> |snip| == length)
    ensures b.socket.Undisturbed() && length <= BUFFER_SIZE ==> (err == None <==> |b.Ahead()| >= length)
  {
    b := new BufferedConn.Over(below);
    err := b.SetDeadline();
    if err != None { return [], b, err; }
    snip, err := b.Peek(length);
    assert snip <= b.held;
  }

  /**
   * The tcp handler on a stream of any chunking, up to the hand-over: which handler gets the connection, and which
   * of the buffered readers it reads through. The innermost reader is the last one made. Without a handler the
   * connection failed or the stream ended before there were enough bytes.
   */
  method Handle(conn: Conn, spicy: bool, parses: Parses)
    returns (h: Handler, reader: BufferedConn, ghost innermost: BufferedConn)
    requires conn.pos <= |conn.incoming|
    modifies conn
    ensures fresh(reader.repr - {conn}) && reader.Valid() && innermost.Valid() && conn.outgoing == old(conn.outgoing)
    ensures innermost.Ahead() == old(conn.incoming[conn.pos..])
    ensures h != NoHandler ==> Chosen(h, spicy, parses, innermost.Ahead())
    ensures h == NoHandler && conn.Undisturbed() ==> TooFew(spicy, parses, innermost.Ahead())
    ensures TooFew(spicy, parses, innermost.Ahead()) ==> h == NoHandler
    ensures h in {Http, Rdp, MongoDB} ==> reader.Ahead() == old(conn.incoming[conn.pos..])
    ensures h == Fallback ==> (reader.Ahead() == old(conn.incoming[conn.pos..]) <==> !spicy)
    ensures h == Fallback && spicy ==>
      |innermost.held| >= 16 && innermost.held + reader.Ahead() == old(conn.incoming[conn.pos..])
  {
    ghost var stream := conn.incoming[conn.pos..];
    var snip, err;
    snip, reader, err := Peek(conn, 4);
    innermost := reader;
    if err != None { return NoHandler, reader, innermost; }
    assert snip == stream[..4];
    if spicy {
      var protocol: Option<string> := None;
      if parses.first { protocol := ParseTcpProtocol(snip); }
      FirstChooses(parses, stream, protocol);
      if protocol == Some("http") { return Http, reader, innermost; }
      if protocol == Some("rdp") { return Rdp, reader, innermost; }
      var moreSample, inner;
      moreSample, inner, err := PeekOver(reader, 16);
      innermost := inner;
      if err != None { return NoHandler, reader, innermost; }
      assert moreSample == stream[..16];
      ghost var first := protocol;
      protocol := None;
      if parses.second { protocol := ParseTcpProtocol(moreSample); }
      SecondChooses(parses, stream, first, protocol);
      if protocol == Some("mongodb") { return MongoDB, inner, innermost; }
    }
    return Fallback, reader, innermost;
  }

  /** With Spicy on and both parses answering, each class of first bytes has its handler, and the rest the fallback. */
  lemma MongoRouteIsExact(h: Handler, stream: Bytes)
    requires |stream| >= 16 && h != NoHandler && Chosen(h, true, Parses(true, true), stream)
    ensures h == MongoDB <==> MongoHeader(stream)
    ensures h == Http <==> HttpWord(stream[..4])
    ensures h == Rdp <==> stream[..4] == CONNECTION_REQUEST
    ensures h == Fallback <==> !MongoHeader(stream) && !HttpWord(stream[..4]) && stream[..4] != CONNECTION_REQUEST
  {
  }

  /** The fallback does lose bytes: sixteen zeros are of no class, though both parses answer. */
  method SomeStreamFallsBack(plan: nat -> Answer) returns (h: Handler, reader: BufferedConn)
    ensures h in {NoHandler, Fallback}
    ensures (forall n :: plan(n).err == None && !plan(n).short) ==>
      h == Fallback && reader.Valid() && reader.Ahead() == []
  {
    var conn := new Conn(seq(16, _ => 0), plan);
    ghost var innermost;
    h, reader, innermost := Handle(conn, true, Parses(true, true));
    ghost var stream := innermost.Ahead();
    ZerosAreNothing(stream);
  }

  lemma ZerosAreNothing(stream: Bytes)
    requires |stream| == 16 && forall b :: b in stream ==> b == 0
    ensures !MongoHeader(stream) && !HttpWord(stream[..4]) && stream[..4] != CONNECTION_REQUEST
  {
    var first := stream[..4];
    assert forall i :: 0 <= i < 4 ==> first[i] == stream[i] && stream[i] in stream;
    assert first[0] == 0 && U32(first) == 0;
    Words(first);
  }
}
