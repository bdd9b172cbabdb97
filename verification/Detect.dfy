/** The classifier of a connection's first bytes. */
module Detect {
  import opened Wrappers
  import opened Pipes
  import opened LittleEndian

  /** The bytes of an ASCII string. */
  function Ascii(s: string): (b: Bytes)
    requires forall c :: c in s ==> c as int < 256
    ensures |b| == |s| && forall i :: 0 <= i < |s| ==> b[i] as int == s[i] as int
  {
    seq(|s|, i requires 0 <= i < |s| => (assert s[i] in s; s[i] as int as Byte))
  }

  const MAX_MESSAGE: int := 48 * 1024 * 1024

  const CONNECTION_REQUEST: Bytes := [3, 0, 0, 0x2b]

  predicate HttpWord(b: Bytes) {
    b in {Ascii("GET "), Ascii("POST"), Ascii("HEAD"), Ascii("OPTI"), Ascii("CONN")}
  }

  /** The op codes that the classifier looks for. */
  predicate OpCode(code: int) {
    code in {1, 2001, 2002, 2004, 2005, 2006, 2007, 2012, 2013}
  }

  /** The op codes that the handler has names for. */
  const OP_CODE_NAMES: map<int, string> := map[
    1 := "OP_REPLY", 2001 := "OP_UPDATE", 2002 := "OP_INSERT", 2004 := "OP_QUERY", 2005 := "OP_GET_MORE",
    2006 := "OP_DELETE", 2007 := "OP_KILL_CURSORS", 2012 := "OP_COMPRESSED", 2013 := "OP_MSG"
  ]

  /** The two tables have the same codes. */
  lemma SameOpCodes(code: int)
    ensures OpCode(code) <==> code in OP_CODE_NAMES
  {
  }

  /** The words of a request line, and the head of a connection request, byte for byte. */
  lemma Words(b: Bytes)
    ensures HttpWord(b) <==>
      b in {[0x47, 0x45, 0x54, 0x20], [0x50, 0x4f, 0x53, 0x54], [0x48, 0x45, 0x41, 0x44], [0x4f, 0x50, 0x54, 0x49],
            [0x43, 0x4f, 0x4e, 0x4e]}
    ensures U32(CONNECTION_REQUEST) == 0x2b00_0003
  {
    assert Ascii("GET ") == [0x47, 0x45, 0x54, 0x20] && Ascii("POST") == [0x50, 0x4f, 0x53, 0x54];
    assert Ascii("HEAD") == [0x48, 0x45, 0x41, 0x44] && Ascii("OPTI") == [0x4f, 0x50, 0x54, 0x49];
    assert Ascii("CONN") == [0x43, 0x4f, 0x4e, 0x4e];
  }

  /** The unit's variables, which its hooks assign while the sample is parsed. */
  class Protocol {
    var protocol: string
    var messageLength: int

    constructor ()
      ensures protocol == "" && messageLength == 0
    {
      protocol, messageLength := "", 0;
    }

    /** The hook of the first field. */
    method First(bytes: Bytes)
      requires |bytes| == 4
      modifies this
      ensures messageLength == U32(bytes)
      ensures protocol ==
        if HttpWord(bytes) then "http" else if bytes == CONNECTION_REQUEST then "rdp" else old(protocol)
    {
      messageLength := U32(bytes);
      if HttpWord(bytes) {
        protocol := "http";
      } else if bytes == CONNECTION_REQUEST {
        protocol := "rdp";
      }
    }

    /** The hook of the end of the unit. */
    method Finished(rest: Bytes)
      modifies `protocol
      ensures protocol ==
        if old(protocol) == "" && 0 < messageLength <= MAX_MESSAGE && |rest| >= 12 && OpCode(U32(rest[8..12]))
        then "mongodb" else old(protocol)
    {
      if protocol == "" && messageLength > 0 && messageLength <= MAX_MESSAGE && |rest| >= 12 {
        var opCode := U32(rest[8..12]);
        if OpCode(opCode) { protocol := "mongodb"; }
      }
    }
  }

  /** The protocol of a sample, or nothing: the unit needs four bytes and the empty name is no protocol. */
  function Detected(sample: Bytes): Option<string> {
    if |sample| < 4 then None
    else if HttpWord(sample[..4]) then Some("http")
    else if sample[..4] == CONNECTION_REQUEST then Some("rdp")
    else if MongoHeader(sample) then Some("mongodb")
    else None
  }

  /** What the reader of MongoDB messages makes of a header: signed fields, its length guard, its table of op codes. */
  predicate MongoHeader(sample: Bytes) {
    |sample| >= 16 && 0 < I32(sample[..4]) <= MAX_MESSAGE && I32(sample[12..16]) in OP_CODE_NAMES
  }

  /** parseTCPProtocol on the unit's variables after both hooks have run. */
  method ParseTcpProtocol(sample: Bytes) returns (protocol: Option<string>)
    ensures protocol == Detected(sample)
  {
    if |sample| < 4 { return None; }
    var u := new Protocol();
    u.First(sample[..4]);
    u.Finished(sample[4..]);
    SameHeader(sample);
    protocol := if u.protocol != "" then Some(u.protocol) else None;
  }

  /** The longest length that passes is 48 MiB: one more does not. */
  lemma LengthLimit()
    ensures MongoHeader([0, 0, 0, 3, 0, 0, 0, 0, 0, 0, 0, 0, 0xdd, 7, 0, 0])
    ensures !MongoHeader([1, 0, 0, 3, 0, 0, 0, 0, 0, 0, 0, 0, 0xdd, 7, 0, 0])
  {
    var s: Bytes := [0, 0, 0, 3, 0, 0, 0, 0, 0, 0, 0, 0, 0xdd, 7, 0, 0];
    var t: Bytes := [1, 0, 0, 3, 0, 0, 0, 0, 0, 0, 0, 0, 0xdd, 7, 0, 0];
    assert s[..4] == [0, 0, 0, 3] && s[12..16] == [0xdd, 7, 0, 0] && t[..4] == [1, 0, 0, 3];
    assert U32([0, 0, 0, 3]) == 48 * 1024 * 1024 && U32([1, 0, 0, 3]) == 48 * 1024 * 1024 + 1;
    assert U32([0xdd, 7, 0, 0]) == 2013;
  }

  lemma SmallIsSigned(b: Bytes)
    requires |b| == 4
    ensures 0 < U32(b) <= MAX_MESSAGE <==> 0 < I32(b) <= MAX_MESSAGE
    ensures OpCode(U32(b)) <==> OpCode(I32(b))
  {
  }

  /** The unsigned fields of the classifier and the signed fields of the handler make the same decision. */
  lemma SameHeader(sample: Bytes)
    requires |sample| >= 4
    ensures 0 < U32(sample[..4]) <= MAX_MESSAGE && |sample[4..]| >= 12 && OpCode(U32(sample[4..][8..12])) <==>
      MongoHeader(sample)
  {
    SmallIsSigned(sample[..4]);
    if |sample| >= 16 {
      assert sample[4..][8..12] == sample[12..16];
      SmallIsSigned(sample[12..16]);
      SameOpCodes(I32(sample[12..16]));
    }
  }

  /** A length that starts like a request line or like an RDP connection request is far too long. */
  lemma WordsAreTooLong(b: Bytes)
    requires |b| == 4 && (HttpWord(b) || b == CONNECTION_REQUEST)
    ensures I32(b) > MAX_MESSAGE
  {
    assert b[3] as int in {' ' as int, 'T' as int, 'D' as int, 'I' as int, 'N' as int, 0x2b};
  }

  /** On sixteen bytes the classifier says mongodb exactly when the handler would accept the header. */
  lemma DetectorMeetsHandler(sample: Bytes)
    requires |sample| >= 16
    ensures Detected(sample) == Some("mongodb") <==> MongoHeader(sample)
  {
    if HttpWord(sample[..4]) || sample[..4] == CONNECTION_REQUEST { WordsAreTooLong(sample[..4]); }
  }

  /** The three classes are disjoint, though each is decided without looking at the others. */
  lemma ClassesAreDisjoint(sample: Bytes)
    requires |sample| >= 4
    ensures !(HttpWord(sample[..4]) && sample[..4] == CONNECTION_REQUEST)
    ensures !(HttpWord(sample[..4]) && MongoHeader(sample))
    ensures !(sample[..4] == CONNECTION_REQUEST && MongoHeader(sample))
    ensures Detected(sample) == Some("http") <==> HttpWord(sample[..4])
    ensures Detected(sample) == Some("rdp") <==> sample[..4] == CONNECTION_REQUEST
  {
    if HttpWord(sample[..4]) || sample[..4] == CONNECTION_REQUEST { WordsAreTooLong(sample[..4]); }
    if HttpWord(sample[..4]) { assert sample[..4][0] as int >= 'C' as int; }
  }

  /** An answer stands whatever arrives after the bytes it was given on; on four bytes it is never mongodb. */
  lemma AnswersAreStable(sample: Bytes, more: Bytes)
    requires Detected(sample).Some?
    ensures Detected(sample + more) == Detected(sample)
    ensures |sample| < 16 ==> Detected(sample) != Some("mongodb")
  {
    assert (sample + more)[..4] == sample[..4];
    if |sample| >= 16 { assert (sample + more)[12..16] == sample[12..16]; }
  }
}
