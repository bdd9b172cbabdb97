/** Connections that are peeked at through nested buffered readers. */
module Peeking {
  import opened Wrappers
  import opened Sequences
  import opened Pipes
  import opened Proxy

  /** What a buffered reader reads from: the socket, or another buffered connection. */
  datatype Source = Wire(conn: Conn) | Layer(below: BufferedConn)

  const BUFFER_SIZE: nat := 4096

  class BufferedConn {
    const source: Source
    /** The connection at the bottom, to which writes go. */
    const socket: Conn
    /** The bytes read ahead and not yet handed out, and an error kept until they are. */
    var held: Bytes
    var err: Option<Error>

    ghost const height: nat
    ghost const repr: set<object>

    /** What is below: a socket, or a sound buffered connection that is not above this one. */
    ghost predicate Wired()
      reads repr - {this}
      decreases height, 0
    {
      match source
      case Wire(c) => c == socket && repr == {this, c} && c.pos <= |c.incoming|
      case Layer(b) => 
        && b.socket == socket && socket in b.repr && b.height < height
        && b in repr && this !in b.repr && repr == {this} + b.repr && b.Valid()
    }

    ghost predicate Valid()
      reads this, repr
      decreases height, 3
    {
      && this in repr && |held| <= BUFFER_SIZE && Wired()
      && (err == Some(Eof) ==> Below() == []) && (err == None || err == Some(Eof) || !socket.Undisturbed())
    }

    /** What the source still has to come. */
    ghost function Below(): Bytes
      requires Wired()
      reads repr - {this}
      decreases height, 2
    {
      match source case Wire(c) => c.incoming[c.pos..] case Layer(b) => b.Ahead()
    }

    /** The stream as a reader of this connection will see it. */
    ghost function Ahead(): Bytes
      requires Valid()
      reads this, repr
      decreases height, 4
    {
      held + Below()
    }

    constructor (conn: Conn)
      requires conn.pos <= |conn.incoming|
      ensures Valid() && source == Wire(conn) && socket == conn && held == [] && repr == {this, conn}
      ensures Ahead() == conn.incoming[conn.pos..]
    {
      source, socket, held, err, height, repr := Wire(conn), conn, [], None, 0, {this, conn};
    }

    constructor Over(below: BufferedConn)
      requires below.Valid()
      ensures Valid() && source == Layer(below) && socket == below.socket && held == [] && repr == {this} + below.repr
      ensures Ahead() == below.Ahead()
    {
      source, socket, held, err := Layer(below), below.socket, [], None;
      height, repr := below.height + 1, {this} + below.repr;
    }

    /** One read from below: the bytes leave the source's stream. */
    method ReadBelow(capacity: nat) returns (p: Bytes, e: Option<Error>)
      requires Wired() && capacity > 0
      modifies repr - {this}
      ensures Wired() && |p| <= capacity && (e == None ==> |p| > 0)
      ensures (e == Some(Eof) ==> Below() == []) && (socket.Undisturbed() ==> e == None || e == Some(Eof))
      ensures old(Below()) == p + Below() && socket.outgoing == old(socket.outgoing)
      decreases height, 0
    {
      match source {
        case Wire(c) => p, e := c.Read(capacity);
        case Layer(b) => p, e := b.Read(capacity);
      }
    }

    /** A read with nothing held: straight from below when there is room for it, else through the buffer. */
    method ReadThrough(capacity: nat) returns (direct: bool, p: Bytes, e: Option<Error>)
      requires Valid() && capacity > 0 && held == []
      modifies repr
      ensures Valid() && |p| <= capacity && (direct && e == None ==> |p| > 0)
      ensures socket.outgoing == old(socket.outgoing) && (direct && e == Some(Eof) ==> Ahead() == [])
      ensures direct && socket.Undisturbed() ==> e == None || e == Some(Eof)
      ensures if direct then held == [] && old(Ahead()) == p + Ahead()
              else held != [] && p == [] && Ahead() == old(Ahead())
      decreases height, 1
    {
      direct, p, e := true, [], err;
      if err != None {
        err := None;
      } else if capacity >= BUFFER_SIZE {
        p, e := ReadBelow(capacity);
      } else {
        held, err := ReadBelow(BUFFER_SIZE);
        if |held| == 0 {
          e, err := err, None;
        } else {
          direct := false;
        }
      }
    }

    method Read(capacity: nat) returns (p: Bytes, e: Option<Error>)
      requires Valid() && capacity > 0
      modifies repr
      ensures Valid() && |p| <= capacity && (e == None ==> |p| > 0) && (e == Some(Eof) ==> Ahead() == [])
      ensures socket.Undisturbed() ==> e == None || e == Some(Eof)
      ensures old(Ahead()) == p + Ahead() && socket.outgoing == old(socket.outgoing)
      decreases height, 2
    {
      if |held| == 0 {
        var direct;
        direct, p, e := ReadThrough(capacity);
        if direct { return; }
      }
      var n := if capacity < |held| then capacity else |held|;
      p, e, held := held[..n], None, held[n..];
    }

    /** Writing goes straight to the connection at the bottom and leaves what is ahead alone. */
    method Write(p: Bytes) returns (n: nat, e: Option<Error>)
      requires Valid()
      modifies repr - {this}
      ensures Valid() && Ahead() == old(Ahead())
      ensures n <= |p| && socket.outgoing == old(socket.outgoing) + p[..n]
      ensures socket.Undisturbed() ==> e == None && n == |p|
      decreases height
    {
      match source {
        case Wire(c) => n, e := c.Write(p);
        case Layer(b) => n, e := b.Write(p);
      }
    }

    method SetDeadline() returns (e: Option<Error>)
      requires Valid()
      modifies repr - {this}
      ensures Valid() && Ahead() == old(Ahead()) && socket.outgoing == old(socket.outgoing)
      ensures socket.Undisturbed() ==> e == None
      decreases height
    {
      match source {
        case Wire(c) => e := c.SetDeadline();
        case Layer(b) => e := b.SetDeadline();
      }
    }

    /** bufio's fill: one read from below into the free part of the buffer. */
    method Fill()
      requires Valid() && |held| < BUFFER_SIZE && err == None
      modifies repr
      ensures Valid() && Ahead() == old(Ahead()) && socket.outgoing == old(socket.outgoing)
      ensures err == None ==> |held| > |old(held)|
      decreases height, 1
    {
      var p, e := ReadBelow(BUFFER_SIZE - |held|);
      Regroup(held, p, Below());
      held, err := held + p, e;
    }

    /** Nothing is taken from the stream; without an error the answer is its first n bytes. */
    method Peek(n: nat) returns (snip: Bytes, e: Option<Error>)
      requires Valid()
      modifies repr
      ensures Valid() && Ahead() == old(Ahead()) && |held| >= |snip| && socket.outgoing == old(socket.outgoing)
      ensures snip <= Ahead() && (e == None <==> |snip| == n) && (e == Some(Eof) ==> snip == Ahead())
      ensures socket.Undisturbed() && n <= BUFFER_SIZE ==> e == if |Ahead()| >= n then None else Some(Eof)
    {
      while |held| < n && |held| < BUFFER_SIZE && err == None
        invariant Valid() && Ahead() == old(Ahead()) && socket.outgoing == old(socket.outgoing)
        decreases if err == None then 1 else 0, BUFFER_SIZE - |held|
      {
        Fill();
      }
      if n > BUFFER_SIZE {
        snip, e := held, Some(BufferFull);
      } else if |held| < n {
        snip, e, err := held, err, None;
      } else {
        snip, e := held[..n], None;
      }
    }
  }
}
