/** The bridge's flattening of a parsed value into named fields. */
module Flatten {
  import opened Wrappers
  import opened Trees
  import opened Keys

  /** A value as the Spicy runtime describes it; Atomic carries its printed form. */
  datatype Value =
    | Atomic(text: string)
    | Bytes(bytes: string)
    | Vector(elems: seq<Value>)
    | Set(members: seq<Value>)
    | Dict(pairs: seq<Pair>)
    | Optional(inner: Option<Value>)
    | Struct(fields: seq<Member>)
    | Reference(target: Value)

  /** The key of a dictionary entry, by the way scalar_to_string treats it. */
  datatype DictKey = PlainKey(text: string) | BytesKey(bytes: string) | ReferenceKey(target: DictKey) | OtherKey

  datatype Pair = Pair(key: DictKey, value: Value)

  datatype Member = Member(name: string, value: Value)

  /** A field as it ends up in the buffer: both strings are cut at the first NUL by c_str(). */
  datatype Stored = Stored(name: string, value: Scalar)

  const MAX_DEPTH: nat := 64
  const MAX_TEXT: nat := 256

  function CString(s: string): (r: string)
    ensures NUL !in s ==> r == s
    ensures NUL !in r && r <= s && (|r| < |s| ==> s[|r|] == NUL)
  {
    if s == [] || s[0] == NUL then [] else [s[0]] + CString(s[1..])
  }

  function TextField(name: string, value: string): Stored { Stored(CString(name), Text(CString(value))) }

  predicate Printable(b: string) { forall c :: c in b ==> 0x20 <= c as int <= 0x7e }

  function BytesScalar(b: string): Scalar {
    if Printable(b) && |b| <= MAX_TEXT then Text(CString(b)) else Binary(b)
  }

  function KeyText(k: DictKey): string {
    match k
    case PlainKey(text) => text
    case BytesKey(b) => b
    case ReferenceKey(target) => KeyText(target)
    case OtherKey => "<unprintable>"
  }

  // ---------- dump_value ----------

  function Dump(prefix: string, v: Value, depth: nat): seq<Stored>
    decreases v, 0
  {
    if depth > MAX_DEPTH then [Stored(CString(prefix), Text("<depth-limit>"))] else
    match v
    case Reference(target) => Dump(prefix, target, 0)
    case Vector(elems) => DumpElems(prefix, elems, 0, depth)
    case Set(members) => DumpElems(prefix, members, 0, depth)
    case Dict(pairs) => DumpPairs(prefix, pairs, depth)
    case Optional(None) => [Stored(CString(prefix), Text("<nil>"))]
    case Optional(Some(inner)) => Dump(prefix, inner, depth + 1)
    case Struct(fields) => DumpFields(prefix, fields, depth)
    case Bytes(b) => [Stored(CString(prefix), BytesScalar(b))]
    case Atomic(text) => [TextField(prefix, text)]
  }

  function DumpElems(prefix: string, elems: seq<Value>, idx: nat, depth: nat): seq<Stored>
    decreases elems, 1
  {
    if elems == [] then []
    else Dump(Extend(prefix, Index(idx)), elems[0], depth + 1) + DumpElems(prefix, elems[1..], idx + 1, depth)
  }

  function DumpPairs(prefix: string, pairs: seq<Pair>, depth: nat): seq<Stored>
    decreases pairs, 1
  {
    if pairs == [] then []
    else
      assert pairs[0].value < pairs[0];
      Dump(Extend(prefix, Field(KeyText(pairs[0].key))), pairs[0].value, depth + 1)
        + DumpPairs(prefix, pairs[1..], depth)
  }

  function DumpFields(prefix: string, fields: seq<Member>, depth: nat): seq<Stored>
    decreases fields, 1
  {
    if fields == [] then []
    else
      Dump(Extend(prefix, Field(fields[0].name)), fields[0].value, depth + 1)
        + DumpFields(prefix, fields[1..], depth)
  }

  // ---------- The document a value stands for ----------

  datatype Doc = Atom(scalar: Scalar) | Named(fields: seq<Part>) | Listed(elems: seq<Doc>)

  datatype Part = Part(name: string, doc: Doc)

  /** References and optionals seen through, kinds of container forgotten, and the tree cut at the depth limit. */
  function Shape(v: Value, depth: nat): Doc
    decreases v, 0
  {
    if depth > MAX_DEPTH then Atom(Text("<depth-limit>")) else
    match v
    case Reference(target) => Shape(target, 0)
    case Vector(elems) => Listed(ShapeElems(elems, depth))
    case Set(members) => Listed(ShapeElems(members, depth))
    case Dict(pairs) => Named(ShapePairs(pairs, depth))
    case Optional(None) => Atom(Text("<nil>"))
    case Optional(Some(inner)) => Shape(inner, depth + 1)
    case Struct(fields) => Named(ShapeFields(fields, depth))
    case Bytes(b) => Atom(BytesScalar(b))
    case Atomic(text) => Atom(Text(CString(text)))
  }

  function ShapeElems(elems: seq<Value>, depth: nat): (r: seq<Doc>)
    ensures |r| == |elems|
    decreases elems, 1
  {
    if elems == [] then [] else [Shape(elems[0], depth + 1)] + ShapeElems(elems[1..], depth)
  }

  function ShapePairs(pairs: seq<Pair>, depth: nat): seq<Part>
    decreases pairs, 1
  {
    if pairs == [] then []
    else
      assert pairs[0].value < pairs[0];
      [Part(KeyText(pairs[0].key), Shape(pairs[0].value, depth + 1))] + ShapePairs(pairs[1..], depth)
  }

  function ShapeFields(fields: seq<Member>, depth: nat): seq<Part>
    decreases fields, 1
  {
    if fields == [] then []
    else [Part(fields[0].name, Shape(fields[0].value, depth + 1))] + ShapeFields(fields[1..], depth)
  }

  // ---------- The leaves of a document ----------

  function Under(s: Step, es: seq<Entry>): (r: seq<Entry>)
    ensures |r| == |es|
    ensures forall k :: 0 <= k < |es| ==> r[k] == Entry([s] + es[k].path, es[k].value)
  {
    seq(|es|, k requires 0 <= k < |es| => Entry([s] + es[k].path, es[k].value))
  }

  /** The leaves from left to right, each with the path that leads to it. */
  function Leaves(doc: Doc): seq<Entry>
    decreases doc, 0
  {
    match doc
    case Atom(scalar) => [Entry([], scalar)]
    case Named(fields) => NamedLeaves(fields)
    case Listed(elems) => ListedLeaves(elems, 0)
  }

  function NamedLeaves(fields: seq<Part>): seq<Entry>
    decreases fields, 1
  {
    if fields == [] then [] else Under(Field(fields[0].name), Leaves(fields[0].doc)) + NamedLeaves(fields[1..])
  }

  function ListedLeaves(elems: seq<Doc>, from: nat): seq<Entry>
    decreases elems, 1
  {
    if elems == [] then [] else Under(Index(from), Leaves(elems[0])) + ListedLeaves(elems[1..], from + 1)
  }

  /** The leaves below a path, printed as fields. */
  function Print(p: Path, es: seq<Entry>): (r: seq<Stored>)
    ensures |r| == |es|
    ensures forall k :: 0 <= k < |es| ==> r[k] == Stored(CString(KeyOf(p + es[k].path)), es[k].value)
  {
    seq(|es|, k requires 0 <= k < |es| => Stored(CString(KeyOf(p + es[k].path)), es[k].value))
  }

  lemma PrintUnder(p: Path, s: Step, es: seq<Entry>, rest: seq<Entry>)
    ensures Print(p, Under(s, es) + rest) == Print(p + [s], es) + Print(p, rest)
  {
    var all := Under(s, es) + rest;
    forall k | 0 <= k < |all|
      ensures Print(p, all)[k] == (Print(p + [s], es) + Print(p, rest))[k]
    {
      if k < |es| { assert p + ([s] + es[k].path) == (p + [s]) + es[k].path; }
    }
  }

  lemma KeyOfExtended(p: Path, s: Step)
    ensures KeyOf(p + [s]) == Extend(KeyOf(p), s)
  {
  }

  // ---------- What dump_value emits ----------

  lemma AtomPrints(p: Path, scalar: Scalar)
    ensures Print(p, Leaves(Atom(scalar))) == [Stored(CString(KeyOf(p)), scalar)]
  {
    assert p + [] == p;
  }

  /** Exactly one field per leaf of the cut tree, in order, named by the leaf's path. */
  lemma {:induction false} DumpPrintsLeaves(p: Path, v: Value, depth: nat)
    ensures Dump(KeyOf(p), v, depth) == Print(p, Leaves(Shape(v, depth)))
    decreases v, 0
  {
    if depth > MAX_DEPTH || v.Atomic? || v.Bytes? || v == Optional(None) {
      AtomPrints(p, Shape(v, depth).scalar);
      return;
    }
    match v
    case Reference(target) => DumpPrintsLeaves(p, target, 0);
    case Vector(elems) => DumpElemsPrintsLeaves(p, elems, 0, depth);
    case Set(members) => DumpElemsPrintsLeaves(p, members, 0, depth);
    case Dict(pairs) => DumpPairsPrintsLeaves(p, pairs, depth);
    case Optional(inner) => DumpPrintsLeaves(p, inner.value, depth + 1);
    case Struct(fields) => DumpFieldsPrintsLeaves(p, fields, depth);
  }

  lemma {:induction false} DumpElemsPrintsLeaves(p: Path, elems: seq<Value>, idx: nat, depth: nat)
    ensures DumpElems(KeyOf(p), elems, idx, depth) == Print(p, ListedLeaves(ShapeElems(elems, depth), idx))
    decreases elems, 1
  {
    if elems != [] {
      var s := Index(idx);
      KeyOfExtended(p, s);
      DumpPrintsLeaves(p + [s], elems[0], depth + 1);
      DumpElemsPrintsLeaves(p, elems[1..], idx + 1, depth);
      PrintUnder(p, s, Leaves(Shape(elems[0], depth + 1)), ListedLeaves(ShapeElems(elems[1..], depth), idx + 1));
    }
  }

  lemma {:induction false} DumpPairsPrintsLeaves(p: Path, pairs: seq<Pair>, depth: nat)
    ensures DumpPairs(KeyOf(p), pairs, depth) == Print(p, NamedLeaves(ShapePairs(pairs, depth)))
    decreases pairs, 1
  {
    if pairs != [] {
      var value := pairs[0].value;
      assert value < pairs[0];
      var s := Field(KeyText(pairs[0].key));
      KeyOfExtended(p, s);
      DumpPrintsLeaves(p + [s], value, depth + 1);
      DumpPairsPrintsLeaves(p, pairs[1..], depth);
      PrintUnder(p, s, Leaves(Shape(value, depth + 1)), NamedLeaves(ShapePairs(pairs[1..], depth)));
    }
  }

  lemma {:induction false} DumpFieldsPrintsLeaves(p: Path, fields: seq<Member>, depth: nat)
    ensures DumpFields(KeyOf(p), fields, depth) == Print(p, NamedLeaves(ShapeFields(fields, depth)))
    decreases fields, 1
  {
    if fields != [] {
      var s := Field(fields[0].name);
      KeyOfExtended(p, s);
      DumpPrintsLeaves(p + [s], fields[0].value, depth + 1);
      DumpFieldsPrintsLeaves(p, fields[1..], depth);
      PrintUnder(p, s, Leaves(Shape(fields[0].value, depth + 1)), NamedLeaves(ShapeFields(fields[1..], depth)));
    }
  }

  // ---------- Leaves and keys, as the bridge prints them ----------

  /** Bytes become text exactly when there are at most 256 of them, all from the blank to the tilde. */
  lemma BytesAreTextExactly(prefix: string, b: string, depth: nat)
    requires depth <= 64
    ensures Dump(prefix, Bytes(b), depth) ==
      [Stored(CString(prefix), if |b| <= 256 && forall c :: c in b ==> ' ' <= c <= '~' then Text(b) else Binary(b))]
  {
    if forall c :: c in b ==> ' ' <= c <= '~' {
      assert NUL !in b;
    } else {
      var c :| c in b && !(' ' <= c <= '~');
      assert !(0x20 <= c as int <= 0x7e);
    }
  }

  lemma OneEntry(key: DictKey, text: string)
    ensures Dump("", Dict([Pair(key, Atomic(text))]), 0) == [Stored(CString(KeyText(key)), Text(CString(text)))]
  {
    var pairs := [Pair(key, Atomic(text))];
    assert pairs[1..] == [] && DumpPairs("", [], 0) == [];
    assert Dump("", Dict(pairs), 0) == DumpPairs("", pairs, 0);
    assert Dump(KeyText(key), Atomic(text), 1) == [TextField(KeyText(key), text)];
  }

  /** A dictionary's entry is named by its key: text and bytes as they are, and what a reference leads to. */
  lemma EntryIsNamed(name: string, text: string)
    ensures forall key :: key in {PlainKey(name), BytesKey(name), ReferenceKey(BytesKey(name))} ==>
      Dump("", Dict([Pair(key, Atomic(text))]), 0) == [Stored(CString(name), Text(CString(text)))]
  {
    OneEntry(PlainKey(name), text);
    OneEntry(BytesKey(name), text);
    OneEntry(ReferenceKey(BytesKey(name)), text);
  }

  /** Any other key is named by a mark. */
  lemma OtherKeysAreMarked(text: string)
    ensures Dump("", Dict([Pair(OtherKey, Atomic(text))]), 0) ==
      [Stored(CString("<unprintable>"), Text(CString(text)))]
  {
    OneEntry(OtherKey, text);
  }

  // ---------- What a value is made of ----------

  /** The fields of some values, each under its own prefix. */
  function DumpAll(prefixes: seq<string>, vs: seq<Value>, depth: nat): seq<Stored>
    requires |prefixes| == |vs|
  {
    if vs == [] then [] else Dump(prefixes[0], vs[0], depth) + DumpAll(prefixes[1..], vs[1..], depth)
  }

  // ---------- How deep the recursion goes ----------

  /** The values that dump_value calls itself on. */
  function Children(v: Value): (cs: seq<Value>)
    ensures forall c :: c in cs ==> c < v
  {
    match v
    case Reference(target) => [target]
    case Vector(elems) => elems
    case Set(members) => members
    case Dict(pairs) => PairValues(pairs)
    case Optional(inner) => if inner.Some? then [inner.value] else []
    case Struct(fields) => FieldValues(fields)
    case _ => []
  }

  function PairValues(pairs: seq<Pair>): (cs: seq<Value>)
    ensures |cs| == |pairs| && forall i :: 0 <= i < |cs| ==> cs[i] == pairs[i].value && cs[i] < pairs[i]
  {
    seq(|pairs|, i requires 0 <= i < |pairs| => pairs[i].value)
  }

  function FieldValues(fields: seq<Member>): (cs: seq<Value>)
    ensures |cs| == |fields| && forall i :: 0 <= i < |cs| ==> cs[i] == fields[i].value && cs[i] < fields[i]
  {
    seq(|fields|, i requires 0 <= i < |fields| => fields[i].value)
  }

  /** The depth they are called with: a reference drops it. */
  function NextDepth(v: Value, depth: nat): nat { if v.Reference? then 0 else depth + 1 }

  /** Above the limit a value without children is one field, and any other is the fields of its children. */
  lemma ChildrenAreDumped(prefix: string, v: Value, depth: nat) returns (prefixes: seq<string>)
    requires depth <= MAX_DEPTH
    ensures |prefixes| == |Children(v)|
    ensures if v.Atomic? || v.Bytes? || v == Optional(None) then |Dump(prefix, v, depth)| == 1 && Children(v) == []
            else Dump(prefix, v, depth) == DumpAll(prefixes, Children(v), NextDepth(v, depth))
  {
    match v
    case Reference(target) => prefixes := OnlyChildIsDumped(prefix, target, 0);
    case Optional(Some(inner)) => prefixes := OnlyChildIsDumped(prefix, inner, depth + 1);
    case Vector(elems) => prefixes := ElemsAreDumped(prefix, elems, 0, depth);
    case Set(members) => prefixes := ElemsAreDumped(prefix, members, 0, depth);
    case Dict(pairs) => prefixes := PairsAreDumped(prefix, pairs, depth);
    case Struct(fields) => prefixes := FieldsAreDumped(prefix, fields, depth);
    case _ => prefixes := [];
  }

  lemma OnlyChildIsDumped(prefix: string, v: Value, depth: nat) returns (prefixes: seq<string>)
    ensures |prefixes| == 1 && DumpAll(prefixes, [v], depth) == Dump(prefix, v, depth)
  {
    prefixes := [prefix];
    assert [v][1..] == [];
  }

  lemma FirstIsDumped(prefix: string, v: Value, prefixes: seq<string>, vs: seq<Value>, depth: nat)
    requires |prefixes| == |vs|
    ensures DumpAll([prefix] + prefixes, [v] + vs, depth) == Dump(prefix, v, depth) + DumpAll(prefixes, vs, depth)
  {
    assert ([prefix] + prefixes)[1..] == prefixes && ([v] + vs)[1..] == vs;
  }

  lemma {:induction false} ElemsAreDumped(prefix: string, elems: seq<Value>, idx: nat, depth: nat)
    returns (prefixes: seq<string>)
    ensures |prefixes| == |elems| && DumpElems(prefix, elems, idx, depth) == DumpAll(prefixes, elems, depth + 1)
    decreases |elems|
  {
    prefixes := [];
    if elems != [] {
      prefixes := ElemsAreDumped(prefix, elems[1..], idx + 1, depth);
      FirstIsDumped(Extend(prefix, Index(idx)), elems[0], prefixes, elems[1..], depth + 1);
      prefixes := [Extend(prefix, Index(idx))] + prefixes;
      assert elems == [elems[0]] + elems[1..];
    }
  }

  lemma {:induction false} PairsAreDumped(prefix: string, pairs: seq<Pair>, depth: nat) returns (prefixes: seq<string>)
    ensures |prefixes| == |pairs|
    ensures DumpPairs(prefix, pairs, depth) == DumpAll(prefixes, PairValues(pairs), depth + 1)
  {
    prefixes := [];
    if pairs != [] {
      var key := Extend(prefix, Field(KeyText(pairs[0].key)));
      prefixes := PairsAreDumped(prefix, pairs[1..], depth);
      FirstIsDumped(key, pairs[0].value, prefixes, PairValues(pairs[1..]), depth + 1);
      prefixes := [key] + prefixes;
      assert PairValues(pairs) == [pairs[0].value] + PairValues(pairs[1..]);
    }
  }

  lemma {:induction false} FieldsAreDumped(prefix: string, fields: seq<Member>, depth: nat)
    returns (prefixes: seq<string>)
    ensures |prefixes| == |fields|
    ensures DumpFields(prefix, fields, depth) == DumpAll(prefixes, FieldValues(fields), depth + 1)
  {
    prefixes := [];
    if fields != [] {
      var key := Extend(prefix, Field(fields[0].name));
      prefixes := FieldsAreDumped(prefix, fields[1..], depth);
      FirstIsDumped(key, fields[0].value, prefixes, FieldValues(fields[1..]), depth + 1);
      prefixes := [key] + prefixes;
      assert FieldValues(fields) == [fields[0].value] + FieldValues(fields[1..]);
    }
  }

  /** The longest chain of nested calls of dump_value, this one included. */
  function Frames(v: Value, depth: nat): nat
    decreases v, |Children(v)| + 1
  {
    1 + if depth > MAX_DEPTH then 0 else MostFrames(v, Children(v), NextDepth(v, depth))
  }

  function MostFrames(v: Value, cs: seq<Value>, depth: nat): nat
    requires forall c :: c in cs ==> c < v
    decreases v, |cs|
  {
    if cs == [] then 0
    else
      assert cs[0] in cs && forall c :: c in cs[1..] ==> c in cs;
      var first, rest := Frames(cs[0], depth), MostFrames(v, cs[1..], depth);
      if first > rest then first else rest
  }

  /** Every child's chain is no longer than the most, and some child's is that long. */
  lemma {:induction false} MostIsMost(v: Value, cs: seq<Value>, depth: nat)
    requires forall c :: c in cs ==> c < v
    ensures forall c :: c in cs ==> Frames(c, depth) <= MostFrames(v, cs, depth)
    ensures cs != [] ==> exists c :: c in cs && Frames(c, depth) == MostFrames(v, cs, depth)
    decreases |cs|
  {
    if cs != [] {
      assert cs[0] in cs && forall c :: c in cs[1..] ==> c in cs;
      MostIsMost(v, cs[1..], depth);
      assert cs == [cs[0]] + cs[1..];
    }
  }

  /** The most references on a path from a value down. */
  function References(v: Value): nat
    decreases v, |Children(v)| + 1
  {
    (if v.Reference? then 1 else 0) + MostReferences(v, Children(v))
  }

  function MostReferences(v: Value, cs: seq<Value>): nat
    requires forall c :: c in cs ==> c < v
    decreases v, |cs|
  {
    if cs == [] then 0
    else
      assert cs[0] in cs && forall c :: c in cs[1..] ==> c in cs;
      var first, rest := References(cs[0]), MostReferences(v, cs[1..]);
      if first > rest then first else rest
  }

  lemma {:induction false} MostReferencesIsMost(v: Value, cs: seq<Value>)
    requires forall c :: c in cs ==> c < v
    ensures forall c :: c in cs ==> References(c) <= MostReferences(v, cs)
    decreases |cs|
  {
    if cs != [] {
      assert cs[0] in cs && forall c :: c in cs[1..] ==> c in cs;
      MostReferencesIsMost(v, cs[1..]);
    }
  }

  /** However deep the value: one run of the limit, and one more for each reference on the way down. */
  lemma {:induction false} FramesAreBounded(v: Value, depth: nat)
    requires depth <= MAX_DEPTH + 1
    ensures depth + Frames(v, depth) <= MAX_DEPTH + 2 + (MAX_DEPTH + 1) * References(v)
    decreases v
  {
    var cs, next := Children(v), NextDepth(v, depth);
    if depth <= MAX_DEPTH && cs != [] {
      MostIsMost(v, cs, next);
      MostReferencesIsMost(v, cs);
      var c :| c in cs && Frames(c, next) == MostFrames(v, cs, next);
      FramesAreBounded(c, next);
    }
  }

  // ---------- When references lift the limit ----------

  /** A chain of values, each a child of the one before. */
  predicate Chain(chain: seq<Value>) {
    chain != [] && forall i :: 0 <= i < |chain| - 1 ==> chain[i + 1] in Children(chain[i])
  }

  /** Some value of the chain, among those that are reached before the limit, is a reference. */
  predicate PassesReference(chain: seq<Value>, depth: nat) {
    exists i :: 0 <= i < |chain| && depth + i <= MAX_DEPTH && chain[i].Reference?
  }

  lemma ChainTail(chain: seq<Value>)
    requires Chain(chain) && |chain| > 1
    ensures Chain(chain[1..]) && chain[1] in Children(chain[0])
  {
    forall i | 0 <= i < |chain| - 2 ensures chain[1..][i + 1] in Children(chain[1..][i]) {
      assert chain[i + 1 + 1] in Children(chain[i + 1]);
    }
  }

  /** A chain is followed at least to the limit. */
  lemma {:induction false} ChainIsFollowed(chain: seq<Value>, depth: nat)
    requires Chain(chain) && depth <= MAX_DEPTH + 1
    ensures Frames(chain[0], depth) >= if |chain| < MAX_DEPTH + 2 - depth then |chain| else MAX_DEPTH + 2 - depth
    decreases |chain|
  {
    if |chain| > 1 && depth <= MAX_DEPTH {
      var v, next := chain[0], NextDepth(chain[0], depth);
      ChainTail(chain);
      ChainIsFollowed(chain[1..], next);
      MostIsMost(v, Children(v), next);
    }
  }

  /** And past it when it goes through a reference in time. */
  lemma {:induction false} ReferenceIsFollowed(chain: seq<Value>, depth: nat, i: nat)
    requires Chain(chain) && i < |chain| && depth + i <= MAX_DEPTH && chain[i].Reference?
    ensures Frames(chain[0], depth) >= if |chain| < MAX_DEPTH + 3 + i then |chain| else MAX_DEPTH + 3 + i
    decreases |chain|
  {
    if |chain| > 1 {
      var v, next := chain[0], NextDepth(chain[0], depth);
      ChainTail(chain);
      if i == 0 { ChainIsFollowed(chain[1..], next); } else { ReferenceIsFollowed(chain[1..], next, i - 1); }
      MostIsMost(v, Children(v), next);
    }
  }

  /** The frames are those of a chain, which passes a reference if there are more than the limit allows. */
  lemma {:induction false} FramesAreAChain(v: Value, depth: nat) returns (chain: seq<Value>)
    requires depth <= MAX_DEPTH + 1
    ensures Chain(chain) && chain[0] == v && |chain| == Frames(v, depth)
    ensures depth + Frames(v, depth) <= MAX_DEPTH + 2 || PassesReference(chain, depth)
    decreases v
  {
    chain := [v];
    var cs, next := Children(v), NextDepth(v, depth);
    if depth <= MAX_DEPTH && cs != [] {
      MostIsMost(v, cs, next);
      var c :| c in cs && Frames(c, next) == MostFrames(v, cs, next);
      var tail := FramesAreAChain(c, next);
      chain := [v] + tail;
      assert forall i :: 0 <= i < |chain| - 1 ==> i > 0 ==> chain[i] == tail[i - 1] && chain[i + 1] == tail[i];
      if v.Reference? {
        assert chain[0].Reference?;
      } else if PassesReference(tail, next) {
        var i :| 0 <= i < |tail| && next + i <= MAX_DEPTH && tail[i].Reference?;
        assert chain[i + 1].Reference?;
      }
    }
  }

  /**
   * The recursion stays within the limit exactly when no chain of values that goes through a reference among its
   * first 65 is longer than the limit allows; without references it always does.
   */
  lemma LimitHoldsExactly(v: Value)
    ensures Frames(v, 0) <= 66 <==>
      forall chain: seq<Value> :: Chain(chain) && chain[0] == v && PassesReference(chain, 0) ==> |chain| <= 66
    ensures References(v) == 0 ==> Frames(v, 0) <= 66
  {
    FramesAreBounded(v, 0);
    if Frames(v, 0) <= MAX_DEPTH + 2 {
      forall chain: seq<Value> | Chain(chain) && chain[0] == v && PassesReference(chain, 0)
        ensures |chain| <= MAX_DEPTH + 2
      {
        var i :| 0 <= i < |chain| && 0 + i <= MAX_DEPTH && chain[i].Reference?;
        ReferenceIsFollowed(chain, 0, i);
      }
    } else {
      var chain := FramesAreAChain(v, 0);
      assert PassesReference(chain, 0) && |chain| > MAX_DEPTH + 2;
    }
  }

  /** n structs, each held through a reference by the one above. */
  function Tower(n: nat): Value {
    if n == 0 then Atomic("x") else Struct([Member("a", Reference(Tower(n - 1)))])
  }

  /** Two frames for each storey, however many there are. */
  lemma {:induction false} ReferencesLiftTheLimit(n: nat)
    ensures Frames(Tower(n), 0) == 2 * n + 1 && References(Tower(n)) == n
  {
    if n > 0 {
      ReferencesLiftTheLimit(n - 1);
      var v, r, t := Tower(n), Reference(Tower(n - 1)), Tower(n - 1);
      assert Children(v) == [r] && Children(r) == [t];
      assert r in Children(v) && t in Children(r);
      OnlyChild(r, t, 0);
      OnlyChild(v, r, 1);
    }
  }

  lemma OnlyChild(v: Value, c: Value, depth: nat)
    requires c < v
    ensures MostFrames(v, [c], depth) == Frames(c, depth) && MostReferences(v, [c]) == References(c)
  {
    assert [c][1..] == [];
  }
}
