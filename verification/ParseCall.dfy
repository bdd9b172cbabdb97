/** A parse from the caller's side: the result is read into a Go map and freed, and the map is nested. */
module ParseCall {
  import opened Wrappers
  import opened Trees
  import opened Building
  import opened Keys
  import opened Flatten
  import opened FlatMaps
  import opened RoundTrip
  import opened Wholes
  import opened Identity
  import opened Nested
  import opened Walks
  import opened ParsedBuffer

  /** What Parse returns: nothing (the null result is read and the call crashes), an error, or the fields. */
  datatype ParseResult = NoResult | Failed(message: string) | Fields(fields: FlatMap)

  /** out.Fields, filled from the slots in order. */
  method ReadFields(d: ParsedData, ghost lost: set<nat>) returns (fields: FlatMap)
    requires d.ValidBut(lost)
    ensures fields == FieldMap(FieldsAt(d.heap.live, d.Filled()))
  {
    ghost var contents := FieldsAt(d.heap.live, d.Filled());
    fields := map[];
    for i := 0 to d.fieldCount
      invariant fields == FieldMap(contents[..i])
    {
      var f := FieldAt(d.heap.live, d.slots[i]);
      assert f == contents[i] && contents[..i + 1][..i] == contents[..i];
      fields := fields[f.name := f.value];
    }
    assert contents[..d.fieldCount] == contents;
  }

  /** What an error says of how the parse ended; without one it is about memory. */
  predicate Says(outcome: Outcome, message: string) {
    match outcome
    case NotReady => message == "runtime not initialized"
    case NoParser => message == "parser not found"
    case NoValue => message == "no value returned"
    case Thrown(what) => message == CString(what)
    case Interrupted(_, _, what) => message == CString(what)
    case Parsed(_) => message in {GROWTH_COMPLAINT, NAME_COMPLAINT, VALUE_COMPLAINT, BINARY_COMPLAINT}
  }

  /**
   * A call that is not timed out. The fields are the kept ones of those tried, and of a value that was flattened all
   * of them were tried; they are all there exactly when no message was lost. The heap has its old blocks, and one
   * more exactly when an exception came after a recorded error.
   */
  method Parse(heap: Heap, parserName: string, length: int, outcome: Outcome)
    returns (r: ParseResult, ghost kept: seq<bool>, ghost lost: set<nat>)
    requires heap.Sound() && heap.TellsOfGrowth()
    modifies heap
    ensures heap.Sound() && heap.live.Keys == old(heap.live.Keys) + lost
    ensures lost != {} <==> !r.NoResult? && outcome.Interrupted? && |kept| < |Emitted(outcome)|
    ensures r.NoResult? <==> length <= 0 || !old(heap.Grants(Block))
    ensures |kept| <= |Emitted(outcome)| && (r.Fields? ==> r.fields == FieldMap(Pick(Emitted(outcome), kept)))
    ensures outcome.Parsed? && !r.NoResult? ==> (r.Fields? <==> |kept| == |Emitted(outcome)|)
    ensures heap.mute == old(heap.mute) + Missing(kept) + (if r.Fields? && !outcome.Parsed? then 1 else 0)
    ensures r.Failed? ==> Says(outcome, r.message)
    ensures heap.Generous() && !r.NoResult? ==> (r.Fields? <==> outcome.Parsed?)
    ensures heap.Silent() && !r.NoResult? ==> r.Fields?
    ensures (heap.Always(Message) ==> heap.mute == old(heap.mute)) && (heap.Never(Name) ==> true !in kept)
  {
    var d;
    d, kept, lost := ParseGeneric(heap, parserName, length, outcome);
    if d == null { return NoResult, [], {}; }
    if d.errorMessage != NULL {
      r := Failed(if d.errorMessage in heap.live then heap.live[d.errorMessage] else "");
    } else {
      var fields := ReadFields(d, lost);
      r := Fields(fields);
    }
    d.Free(lost);
  }

  /** A field goes missing without an error: neither its name nor the message about that can be stored. */
  method SilentLoss(parserName: string, name: string, text: string) returns (r: ParseResult)
    ensures r == Fields(map[])
    ensures FieldMap(Dump("", Struct([Member(name, Atomic(text))]), 0)) != map[]
  {
    var heap := new Heap((purpose, n) => purpose != Name && purpose != Message);
    var value := Struct([Member(name, Atomic(text))]);
    OneField(name, text);
    ghost var kept, lost;
    r, kept, lost := Parse(heap, parserName, 1, Parsed(value));
    FieldMapHolds(Dump("", value, 0));
    assert Dump("", value, 0)[0].name in FieldMap(Dump("", value, 0));
    PickNone(Dump("", value, 0), kept);
  }

  // ---------- The fields that were kept ----------

  lemma {:induction false} PickMember<T>(out: seq<T>, kept: seq<bool>, x: T) returns (i: nat)
    requires |kept| <= |out| && x in Pick(out, kept)
    ensures i < |kept| && kept[i] && out[i] == x
    decreases |kept|
  {
    var n := |kept| - 1;
    if x in Pick(out, kept[..n]) { i := PickMember(out, kept[..n], x); } else { i := n; }
  }

  lemma OneMoreMatches(fields: seq<Stored>, es: seq<Entry>, f: Stored, e: Entry)
    requires Matches(fields, es) && Coherent(es)
    requires WellFormed(f.name) && Entry(PathOf(f.name), f.value) == e
    requires forall x :: x in es ==> Compatible(x.path, e.path)
    ensures Matches(fields + [f], es + [e]) && Coherent(es + [e])
  {
  }

  lemma {:induction false} PickMatches(fields: seq<Stored>, es: seq<Entry>, kept: seq<bool>)
    requires Matches(fields, es) && Coherent(es) && |kept| <= |es|
    ensures Matches(Pick(fields, kept), Pick(es, kept)) && Coherent(Pick(es, kept))
    decreases |kept|
  {
    if kept != [] {
      var n := |kept| - 1;
      PickMatches(fields, es, kept[..n]);
      if kept[n] {
        forall x | x in Pick(es, kept[..n]) ensures Compatible(x.path, es[n].path) {
          var i := PickMember(es, kept[..n], x);
        }
        OneMoreMatches(Pick(fields, kept[..n]), Pick(es, kept[..n]), fields[n], es[n]);
      }
    }
  }

  /** An entry that was tried and not kept, or not tried. */
  lemma {:induction false} NotKept(es: seq<Entry>, kept: seq<bool>) returns (e: Entry)
    requires Coherent(es) && |kept| <= |es| && (|kept| == |es| ==> Missing(kept) > 0)
    ensures e in es && e !in Pick(es, kept)
    decreases |kept|
  {
    var k: nat := |kept|;
    if k == |es| { k := MissingAt(kept); }
    e := es[k];
    if e in Pick(es, kept) {
      var i := PickMember(es, kept, e);
      CoherentDistinct(es, i, k);
    }
  }

  lemma {:induction false} MissingAt(kept: seq<bool>) returns (k: nat)
    requires Missing(kept) > 0
    ensures k < |kept| && !kept[k]
    decreases |kept|
  {
    var n := |kept| - 1;
    if kept[n] { k := MissingAt(kept[..n]); } else { k := n; }
  }

  /** Fewer entries build something else. */
  lemma FewerBuildLess(es: seq<Entry>, kept: seq<bool>)
    requires |kept| <= |es| && (|kept| == |es| ==> Missing(kept) > 0)
    requires Coherent(es) && Build(ROOT, es).Some?
    ensures Build(ROOT, Pick(es, kept)) != Build(ROOT, es)
  {
    var e := NotKept(es, kept);
    EntryIsBuilt(ROOT, es, e);
    if Build(ROOT, Pick(es, kept)) == Build(ROOT, es) {
      BuiltLeafIsEntry(ROOT, Pick(es, kept), e.path, e.value);
    }
  }

  lemma KeptBuild(es: seq<Entry>, kept: seq<bool>)
    requires |kept| <= |es| && Coherent(es) && Build(ROOT, es).Some?
    ensures Build(ROOT, Pick(es, kept)) == Build(ROOT, es) <==> |kept| == |es| && Missing(kept) == 0
  {
    if |kept| == |es| && Missing(kept) == 0 {
      PickAll(es, kept);
      assert es[..|es|] == es;
    } else {
      FewerBuildLess(es, kept);
    }
  }

  /** The kept fields of coherent entries nest to what all of them build exactly when none is missing. */
  lemma KeptNest(fields: seq<Stored>, es: seq<Entry>, kept: seq<bool>, order: seq<string>)
    requires |kept| <= |fields| && Matches(fields, es) && Coherent(es) && Build(ROOT, es).Some?
    requires IsOrder(order, FieldMap(Pick(fields, kept)))
    ensures CoherentFlat(FieldMap(Pick(fields, kept)))
    ensures Nest(order, FieldMap(Pick(fields, kept))) == Build(ROOT, Pick(es, kept))
    ensures Build(ROOT, Pick(es, kept)) == Build(ROOT, es) <==> |kept| == |es| && Missing(kept) == 0
  {
    PickMatches(fields, es, kept);
    MatchingNest(Pick(fields, kept), Pick(es, kept), order);
    KeptBuild(es, kept);
  }

  lemma KeptWholeIsIntact(v: Value, kept: seq<bool>)
    requires Shape(v, 0).Named? && Whole(v).Named? && Faithful(Whole(v).fields) && |kept| <= |Leaves(Shape(v, 0))|
    requires Build(ROOT, Pick(Leaves(Shape(v, 0)), kept)) == Some(Full(Identity.Plain(Whole(v))))
    ensures Intact(v, 0)
  {
    var es := Leaves(Shape(v, 0));
    forall e | e in Pick(es, kept) ensures e in es { var i := PickMember(es, kept, e); }
    WholeIsIntact(v, Pick(es, kept));
  }

  /**
   * The kept fields of a faithful struct nest whatever is missing, and to the struct itself exactly when nothing is
   * and the struct is intact.
   */
  lemma KeptFieldsNest(v: Value, kept: seq<bool>, order: seq<string>)
    requires Shape(v, 0).Named? && Whole(v).Named? && Faithful(Whole(v).fields) && |kept| <= |Dump("", v, 0)|
    requires IsOrder(order, FieldMap(Pick(Dump("", v, 0), kept)))
    ensures CoherentFlat(FieldMap(Pick(Dump("", v, 0), kept)))
    ensures Nest(order, FieldMap(Pick(Dump("", v, 0), kept))) == Some(Full(Identity.Plain(Whole(v))))
       <==> |kept| == |Dump("", v, 0)| && Missing(kept) == 0 && Intact(v, 0)
  {
    FaithfulShape(v);
    FaithfulFields(v);
    KeptNest(Dump("", v, 0), Leaves(Shape(v, 0)), kept, order);
    ShapeIsWholeExactly(v, 0);
    if Build(ROOT, Pick(Leaves(Shape(v, 0)), kept)) == Some(Full(Identity.Plain(Whole(v)))) {
      KeptWholeIsIntact(v, kept);
    }
  }

  /** The fields of a clean struct are coherent whichever were kept, so nesting them cannot fail. */
  lemma CleanFieldsAreCoherent(v: Value, kept: seq<bool>)
    requires Shape(v, 0).Named? && Clean(Shape(v, 0), false) && NoBlankTop(Shape(v, 0).fields)
    requires |kept| <= |Dump("", v, 0)|
    ensures CoherentFlat(FieldMap(Pick(Dump("", v, 0), kept)))
  {
    CleanFields(v);
    PickMatches(Dump("", v, 0), Leaves(Shape(v, 0)), kept);
    MatchingAreCoherent(Pick(Dump("", v, 0), kept), Pick(Leaves(Shape(v, 0)), kept));
  }

  /**
   * From the C value to the Go tree, whichever allocations fail and whatever order the map is visited in: a parse of
   * a faithful struct that succeeds nests, and to the struct itself exactly when it is intact and no message was lost
   * on the way; in every case the C heap has its old blocks and no others.
   */
  method ParseAndNest(heap: Heap, parserName: string, length: int, v: Value)
    returns (r: ParseResult, root: GoMap?, ghost lay: Layout)
    requires heap.Sound() && heap.TellsOfGrowth()
    requires Shape(v, 0).Named? && Whole(v).Named? && Faithful(Whole(v).fields)
    modifies heap
    ensures heap.live.Keys == old(heap.live.Keys)
    ensures root != null <==> r.Fields?
    ensures r.NoResult? <==> length <= 0 || !old(heap.Grants(Block))
    ensures heap.Generous() && !r.NoResult? ==> r.Fields?
    ensures heap.Always(Message) ==> heap.mute == old(heap.mute)
    ensures root != null ==> Shown(lay, null) && root in lay.maps
    ensures root != null ==>
      (lay.maps[root].0 == Identity.Plain(Whole(v)) <==> Intact(v, 0) && heap.mute == old(heap.mute))
  {
    lay := Layout(map[], map[]);
    ghost var kept, lost;
    r, kept, lost := Parse(heap, parserName, length, Parsed(v));
    match r {
      case Fields(fields) =>
        ghost var order;
        FaithfulShape(v);
        CleanFieldsAreCoherent(v, kept);
        root, lay, order := NestedFromFlat(fields);
        if root != null { KeptFieldsNest(v, kept, order); }
      case _ => root := null;
    }
  }

  // ---------- The fields of a struct of leaves ----------

  /** What a leaf is read as: text up to its first NUL, and bytes as text if there are few and all can be printed. */
  function LeafScalar(v: Value): Scalar
    requires v.Atomic? || v.Bytes?
  {
    match v
    case Atomic(text) => Text(CString(text))
    case Bytes(b) => if |b| <= 256 && forall c :: c in b ==> ' ' <= c <= '~' then Text(b) else Binary(b)
  }

  lemma LeafDumps(name: string, v: Value)
    requires v.Atomic? || v.Bytes?
    ensures Dump(name, v, 1) == [Stored(CString(name), LeafScalar(v))]
  {
    if v.Bytes? { BytesAreTextExactly(name, v.bytes, 1); }
  }

  lemma {:induction false} LeafStructDumps(members: seq<Member>)
    requires forall m :: m in members ==> m.value.Atomic? || m.value.Bytes?
    ensures |DumpFields("", members, 0)| == |members|
    ensures forall i :: 0 <= i < |members| ==>
      DumpFields("", members, 0)[i] == Stored(CString(members[i].name), LeafScalar(members[i].value))
  {
    if members != [] {
      LeafDumps(members[0].name, members[0].value);
      LeafStructDumps(members[1..]);
    }
  }

  /** A member of a struct of leaves, with names of its own, is read from the fields of the parse under its name. */
  lemma LeafIsRead(members: seq<Member>, i: nat)
    requires i < |members| && forall m :: m in members ==> (m.value.Atomic? || m.value.Bytes?) && NUL !in m.name
    requires forall j, k :: 0 <= j < k < |members| ==> members[j].name != members[k].name
    ensures var fields := FieldMap(Dump("", Struct(members), 0));
      members[i].name in fields && fields[members[i].name] == LeafScalar(members[i].value)
  {
    var out := DumpFields("", members, 0);
    assert Dump("", Struct(members), 0) == out;
    LeafStructDumps(members);
    forall k | 0 <= k < |members| ensures out[k].name == members[k].name { assert members[k] in members; }
    LastOfNameWins(out, i);
  }
}
