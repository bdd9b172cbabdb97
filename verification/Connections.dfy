/** The connection table: first registration wins, and a ticker flushes what has grown old. */
module Connections {
  import opened Wrappers
  import opened GoStrings
  import opened Rules

  datatype Key = Key(addr: int, port: int)

  datatype Metadata = Metadata(added: int, rule: Rule, targetPort: nat)

  type Table = map<Key, Metadata>

  /** What is done to the table, and when; a connection that is skipped passes it by. */
  datatype Op = Register(key: Key, rule: Rule, targetPort: nat) | Flush(age: int) | Get(key: Key) | Pass

  datatype Event = Event(at: int, op: Op)

  function Flushed(table: Table, threshold: int): Table {
    map k | k in table && !(table[k].added < threshold) :: table[k]
  }

  function Apply(table: Table, e: Event): Table {
    match e.op
    case Register(key, rule, targetPort) =>
      if key in table then table else table[key := Metadata(e.at, rule, targetPort)]
    case Flush(age) => Flushed(table, e.at - age)
    case Get(_) => table
    case Pass => table
  }

  function Run(table: Table, es: seq<Event>): Table
    decreases |es|
  {
    if es == [] then table else Run(Apply(table, es[0]), es[1..])
  }

  // ---------- How long an entry lives ----------

  /** The clock never goes back. */
  predicate Timed(es: seq<Event>, now: int) {
    es == [] || (now <= es[0].at && Timed(es[1..], es[0].at))
  }

  /** Every flush is of the same age. */
  predicate Ages(es: seq<Event>, age: int) { forall e :: e in es && e.op.Flush? ==> e.op.age == age }

  /** A flush that finds entries added at a time old enough. */
  predicate Ends(e: Event, added: int) { e.op.Flush? && added < e.at - e.op.age }

  lemma {:induction false} YoungerStays(table: Table, es: seq<Event>, k: Key, added: int, now: int)
    requires Timed(es, now) && added < now && (k in table ==> added < table[k].added)
    ensures k in Run(table, es) ==> added < Run(table, es)[k].added
    decreases |es|
  {
    if es != [] { YoungerStays(Apply(table, es[0]), es[1..], k, added, es[0].at); }
  }

  /**
   * An entry stays, whatever is registered after it, until a flush finds it older than the flush age, and is gone
   * from then on: a later registration makes a new entry, with a later time.
   */
  lemma {:induction false} LivesExactly(table: Table, es: seq<Event>, age: int, k: Key, now: int)
    requires Timed(es, now) && Ages(es, age) && age >= 0 && k in table && table[k].added <= now
    ensures k in Run(table, es) && Run(table, es)[k] == table[k] <==> forall e :: e in es ==> !Ends(e, table[k].added)
    decreases |es|
  {
    if es != [] {
      var e, rest := es[0], es[1..];
      if Ends(e, table[k].added) {
        assert e in es;
        YoungerStays(Apply(table, e), rest, k, table[k].added, e.at);
      } else {
        LivesExactly(Apply(table, e), rest, age, k, e.at);
        assert forall f :: f in es <==> f == e || f in rest;
      }
    }
  }

  /** Until its age is up, getting or registering its key again finds the entry of the first registration. */
  lemma LivesItsAge(table: Table, es: seq<Event>, age: int, k: Key, now: int)
    requires Timed(es, now) && Ages(es, age) && age >= 0 && k in table && table[k].added <= now
    requires forall e :: e in es ==> e.at <= table[k].added + age
    ensures k in Run(table, es) && Run(table, es)[k] == table[k]
  {
    LivesExactly(table, es, age, k, now);
  }

  /** The ticker: no event is more than a period later than the flush before it. */
  predicate Punctual(es: seq<Event>, lastFlush: int, period: int) {
    es == [] ||
      (es[0].at <= lastFlush + period && Punctual(es[1..], if es[0].op.Flush? then es[0].at else lastFlush, period))
  }

  predicate Recent(table: Table, oldest: int, now: int) {
    forall k :: k in table ==> oldest <= table[k].added <= now
  }

  lemma {:induction false} RunKeepsRecent(table: Table, es: seq<Event>, age: int, period: int, lastFlush: int, now: int,
      i: nat)
    requires Timed(es, now) && Ages(es, age) && Punctual(es, lastFlush, period) && age >= 0 && i < |es|
    requires Recent(table, lastFlush - age, now) && lastFlush <= now
    ensures Recent(Run(table, es[..i]), es[i].at - period - age, es[i].at)
    decreases |es|
  {
    if i > 0 {
      var e := es[0];
      assert es[..i][0] == e && es[..i][1..] == es[1..][..i - 1];
      RunKeepsRecent(Apply(table, e), es[1..], age, period, if e.op.Flush? then e.at else lastFlush, e.at, i - 1);
    }
  }

  /**
   * From an empty table at time start, with flushes of one age a period apart at most: at every event, whatever is
   * in the table was added no earlier than a period and an age before, however often its key was registered since.
   */
  lemma GoneInTime(es: seq<Event>, age: int, period: int, start: int, i: nat)
    requires Timed(es, start) && Ages(es, age) && Punctual(es, start, period) && age >= 0 && i < |es|
    ensures forall k :: k in Run(map[], es[..i]) ==> es[i].at <= Run(map[], es[..i])[k].added + age + period
  {
    RunKeepsRecent(map[], es, age, period, start, start, i);
  }

  /** The first registration of a key wins until a flush: a second one, of any rule, changes nothing. */
  lemma FirstWins(table: Table, first: Event, second: Event, between: seq<Event>)
    requires first.op.Register? && second.op.Register? && second.op.key == first.op.key && first.op.key !in table
    requires forall e :: e in between ==> !e.op.Flush?
    ensures Run(Apply(table, first), between + [second]) == Run(Apply(table, first), between)
    ensures first.op.key in Run(Apply(table, first), between)
    ensures Run(Apply(table, first), between)[first.op.key] == Metadata(first.at, first.op.rule, first.op.targetPort)
  {
    RunAppend(Apply(table, first), between, second);
    StaysUnflushed(Apply(table, first), between, first.op.key);
  }

  lemma {:induction false} RunAppend(table: Table, es: seq<Event>, e: Event)
    ensures Run(table, es + [e]) == Apply(Run(table, es), e)
    decreases |es|
  {
    if es == [] {
      assert (es + [e])[1..] == [];
    } else {
      assert (es + [e])[1..] == es[1..] + [e];
      RunAppend(Apply(table, es[0]), es[1..], e);
    }
  }

  lemma {:induction false} StaysUnflushed(table: Table, es: seq<Event>, k: Key)
    requires k in table && forall e :: e in es ==> !e.op.Flush?
    ensures k in Run(table, es) && Run(table, es)[k] == table[k]
    decreases |es|
  {
    if es != [] { StaysUnflushed(Apply(table, es[0]), es[1..], k); }
  }

  // ---------- Where an entry comes from ----------

  /** The registration that made an entry: it found none under its key, and no flush since has found it too old. */
  predicate Origin(es: seq<Event>, j: nat, k: Key, md: Metadata) {
    && j < |es| && es[j].op.Register? && es[j].op.key == k
    && md == Metadata(es[j].at, es[j].op.rule, es[j].op.targetPort)
    && k !in Run(map[], es[..j]) && forall m :: j < m < |es| ==> !Ends(es[m], md.added)
  }

  lemma LastEvent(es: seq<Event>)
    requires es != []
    ensures Run(map[], es) == Apply(Run(map[], es[..|es| - 1]), es[|es| - 1])
  {
    assert es == es[..|es| - 1] + [es[|es| - 1]];
    RunAppend(map[], es[..|es| - 1], es[|es| - 1]);
  }

  lemma {:induction false} HasOrigin(es: seq<Event>, k: Key) returns (j: nat)
    requires k in Run(map[], es)
    ensures Origin(es, j, k, Run(map[], es)[k])
    decreases |es|
  {
    LastEvent(es);
    var front := es[..|es| - 1];
    if k in Run(map[], front) {
      j := HasOrigin(front, k);
      assert front[..j] == es[..j];
    } else {
      j := |front|;
    }
  }

  lemma {:induction false} OriginIsFound(es: seq<Event>, j: nat, k: Key, md: Metadata)
    requires Origin(es, j, k, md)
    ensures k in Run(map[], es) && Run(map[], es)[k] == md
    decreases |es|
  {
    LastEvent(es);
    var front := es[..|es| - 1];
    if j < |front| {
      assert front[..j] == es[..j];
      OriginIsFound(front, j, k, md);
    }
  }

  /** What is found under a key is what its first registration since it was last missing put there, and no other. */
  lemma FoundExactly(es: seq<Event>, k: Key, md: Metadata)
    ensures k in Run(map[], es) && Run(map[], es)[k] == md <==> exists j :: Origin(es, j, k, md)
  {
    if k in Run(map[], es) { var j := HasOrigin(es, k); }
    forall j | Origin(es, j, k, md) ensures k in Run(map[], es) && Run(map[], es)[k] == md {
      OriginIsFound(es, j, k, md);
    }
  }

  /** With punctual flushes, what is found at an event was registered no more than a period and an age before. */
  lemma OriginIsRecent(es: seq<Event>, age: int, period: int, start: int, i: nat, j: nat, k: Key, md: Metadata)
    requires Timed(es, start) && Ages(es, age) && Punctual(es, start, period) && age >= 0 && period >= 0 && i < |es|
    requires Origin(es[..i + 1], j, k, md)
    ensures es[i].at - age - period <= md.added <= es[i].at
  {
    if j < i {
      assert es[..i + 1][..j] == es[..i][..j];
      assert forall m :: j < m < i ==> es[..i][m] == es[..i + 1][m];
      OriginIsFound(es[..i], j, k, md);
      RunKeepsRecent(map[], es, age, period, start, start, i);
    }
  }

  // ---------- The table itself ----------

  class ConnTable {
    var table: Table

    constructor ()
      ensures table == map[]
    {
      table := map[];
    }

    /** The key of a client is made by hashing its IPv4 address; other addresses and bad ports have none. */
    method Register(keyOf: (string, int) -> Option<Key>, srcIP: string, srcPort: string, dstPort: nat, rule: Rule,
        now: int)
      returns (md: Option<Metadata>)
      modifies this
      ensures md == None <==> KeyFor(keyOf, srcIP, srcPort) == None
      ensures md == None ==> table == old(table)
      ensures md.Some? ==> table == Apply(old(table),
        Event(now, Op.Register(KeyFor(keyOf, srcIP, srcPort).value, rule, dstPort)))
      ensures md.Some? ==>
        var key := KeyFor(keyOf, srcIP, srcPort).value;
        key in table && table[key] == md.value
    {
      var key := KeyFor(keyOf, srcIP, srcPort);
      if key == None { return None; }
      if key.value in table { return Some(table[key.value]); }
      md := Some(Metadata(now, rule, dstPort));
      table := table[key.value := md.value];
    }

    method FlushOlderThan(age: int, now: int)
      modifies this
      ensures table == Apply(old(table), Event(now, Flush(age)))
    {
      var threshold := now - age;
      var rest := table.Keys;
      while rest != {}
        invariant rest <= old(table).Keys && forall k :: k in rest ==> k in table
        invariant forall k :: k in table ==> k in old(table) && table[k] == old(table)[k]
        invariant forall k :: k in old(table) && k !in rest ==> (k in table <==> !(old(table)[k].added < threshold))
        decreases rest
      {
        var k :| k in rest;
        rest := rest - {k};
        if table[k].added < threshold { table := table - {k}; }
      }
    }

    /** The zero metadata of a missing key is nothing here. */
    method Get(key: Key) returns (md: Option<Metadata>)
      ensures md == if key in table then Some(table[key]) else None
    {
      md := if key in table then Some(table[key]) else None;
    }
  }

  /** NewConnKeyByString, with the hash of the address left open; the port is cut to sixteen bits. */
  function KeyFor(keyOf: (string, int) -> Option<Key>, host: string, port: string): Option<Key> {
    match Atoi(port)
    case Valid(p) => keyOf(host, p % 65536)
    case _ => None
  }
}
