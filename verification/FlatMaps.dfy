/** Flat maps of fields: which of them nest the same way whatever order their keys are visited in. */
module FlatMaps {
  import opened Wrappers
  import opened GoStrings
  import opened Trees
  import opened Building
  import opened Keys

  type FlatMap = map<string, Scalar>

  const ROOT := Full(Map(NO_ENTRIES))

  /** An order in which ranging over the map may visit its keys. */
  ghost predicate IsOrder(order: seq<string>, flat: FlatMap) {
    && (forall k :: k in order <==> k in flat)
    && Distinct(order)
  }

  predicate Distinct(order: seq<string>) { forall i, j :: 0 <= i < j < |order| ==> order[i] != order[j] }

  predicate Readable(flat: FlatMap) { forall k :: k in flat ==> WellFormed(k) }

  function EntriesOf(order: seq<string>, flat: FlatMap): (r: seq<Entry>)
    requires Readable(flat) && forall k :: k in order ==> k in flat
    ensures |r| == |order|
    ensures forall i :: 0 <= i < |order| ==> r[i] == Entry(PathOf(order[i]), flat[order[i]])
  {
    seq(|order|, i requires 0 <= i < |order| => Entry(PathOf(order[i]), flat[order[i]]))
  }

  /** What nesting makes of the keys in one order: None is the nil result. */
  function Nest(order: seq<string>, flat: FlatMap): Option<Slot>
    requires Readable(flat) && forall k :: k in order ==> k in flat
  {
    Build(ROOT, EntriesOf(order, flat))
  }

  /** Prefix-free, and no base used both as a plain key and as an indexed one. */
  ghost predicate CoherentFlat(flat: FlatMap) {
    && Readable(flat)
    && forall j, k :: j in flat && k in flat && j != k ==> Compatible(PathOf(j), PathOf(k))
  }

  lemma OrderIsCoherent(order: seq<string>, flat: FlatMap)
    requires CoherentFlat(flat) && Distinct(order) && forall k :: k in order ==> k in flat
    ensures Coherent(EntriesOf(order, flat))
  {
    forall i, j | 0 <= i < j < |order| ensures Compatible(PathOf(order[i]), PathOf(order[j])) {
      assert order[i] in order && order[j] in order;
    }
  }

  /** However many keys of a coherent map have been visited, nesting has not failed. */
  lemma NeverNil(order: seq<string>, flat: FlatMap)
    requires CoherentFlat(flat) && Distinct(order) && forall k :: k in order ==> k in flat
    ensures Nest(order, flat).Some?
  {
    OrderIsCoherent(order, flat);
    forall e | e in EntriesOf(order, flat) ensures Insert(ROOT, e.path, e.value).Some? {
      WritableAtRoot(e.path, e.value);
    }
    CoherentBuilds(ROOT, EntriesOf(order, flat));
  }

  lemma EntryOfKey(order: seq<string>, flat: FlatMap, e: Entry)
    requires Readable(flat) && IsOrder(order, flat)
    ensures e in EntriesOf(order, flat) <==> exists k :: k in flat && e == Entry(PathOf(k), flat[k])
  {
    var es := EntriesOf(order, flat);
    if e in es {
      var i :| 0 <= i < |es| && es[i] == e;
      assert order[i] in order;
    }
    if k :| k in flat && e == Entry(PathOf(k), flat[k]) {
      assert k in order;
      var i :| 0 <= i < |order| && order[i] == k;
      assert es[i] == e;
    }
  }

  /** A coherent map nests the same way in every order, and never to nil. */
  lemma NestAnyOrder(js: seq<string>, ks: seq<string>, flat: FlatMap)
    requires CoherentFlat(flat) && IsOrder(js, flat) && IsOrder(ks, flat)
    ensures Nest(js, flat) == Nest(ks, flat)
    ensures Nest(js, flat).Some?
  {
    OrderIsCoherent(js, flat);
    OrderIsCoherent(ks, flat);
    forall e ensures e in EntriesOf(js, flat) <==> e in EntriesOf(ks, flat) {
      EntryOfKey(js, flat, e);
      EntryOfKey(ks, flat, e);
    }
    BuildAnyOrder(ROOT, EntriesOf(js, flat), EntriesOf(ks, flat));
    NeverNil(js, flat);
  }

  lemma WritableAtRoot(p: Path, v: Scalar)
    requires p != [] && p[0].Field?
    ensures Insert(ROOT, p, v).Some? && Insert(ROOT, p, v) == Insert(Empty, p, v)
  {
    assert Child(ROOT, p[0]) == Empty;
    InsertIntoNothing(p[1..], v);
  }

  /** One more key is one more write. */
  lemma NestOneMore(order: seq<string>, k: string, flat: FlatMap)
    requires Readable(flat) && k in flat && forall j :: j in order ==> j in flat
    ensures Nest(order + [k], flat) ==
      match Nest(order, flat)
      case None => None
      case Some(at) =>
        match Insert(at, PathOf(k), flat[k])
        case None => None
        case Some(t) => Some(Full(t))
  {
    assert EntriesOf(order + [k], flat) == EntriesOf(order, flat) + EntriesOf([k], flat);
    BuildConcat(ROOT, EntriesOf(order, flat), EntriesOf([k], flat));
    assert EntriesOf([k], flat)[1..] == [];
  }

  // ---------- Looking a dotted path up ----------

  function FieldsOf(segs: seq<string>): (r: Path)
    ensures |r| == |segs|
    ensures forall i :: 0 <= i < |segs| ==> r[i] == Field(segs[i])
  {
    seq(|segs|, i requires 0 <= i < |segs| => Field(segs[i]))
  }

  /** The string a nested tree holds at a dotted path, followed through maps only. */
  function StringAt(tree: Slot, path: string): Option<string> {
    match Get(tree, FieldsOf(SplitDots(path)))
    case Full(Leaf(Text(s))) => Some(s)
    case _ => None
  }

  /** What the flat map holds at a key without brackets, if it is a string. */
  function StringOf(flat: FlatMap, path: string): Option<string> {
    if '[' !in path && path in flat && flat[path].Text? then Some(flat[path].s) else None
  }

  /** The string at the first path that has one, else the empty string. */
  function FirstStringAt(tree: Slot, paths: seq<string>): string {
    if paths == [] then "" else
    match StringAt(tree, paths[0])
    case Some(s) => s
    case None => FirstStringAt(tree, paths[1..])
  }

  function FirstStringOf(flat: FlatMap, paths: seq<string>): string {
    if paths == [] then "" else
    match StringOf(flat, paths[0])
    case Some(s) => s
    case None => FirstStringOf(flat, paths[1..])
  }

  /** Segments read as plain names exactly when none has a bracket. */
  lemma {:induction false} PlainSegments(parts: seq<string>)
    requires forall p :: p in parts ==> WellFormedSegment(p)
    ensures (forall s :: s in PartsPath(parts) ==> s.Field?) <==> (forall p :: p in parts ==> '[' !in p)
    ensures (forall p :: p in parts ==> '[' !in p) ==> PartsPath(parts) == FieldsOf(parts)
  {
    if parts == [] { return; }
    var p, rest := parts[0], parts[1..];
    PlainSegments(rest);
    CutIsFirst(p, '[');
    assert parts == [p] + rest;
    if '[' in p {
      assert SegmentPath(p)[1] in PartsPath(parts);
    } else {
      assert SegmentPath(p) == [Field(p)];
      assert forall s :: s in PartsPath(parts) <==> s == Field(p) || s in PartsPath(rest);
    }
  }

  predicate Unbracketed(parts: seq<string>) {
    parts == [] || ('[' !in parts[|parts| - 1] && Unbracketed(parts[..|parts| - 1]))
  }

  lemma {:induction false} UnbracketedMeans(parts: seq<string>)
    ensures Unbracketed(parts) <==> forall p :: p in parts ==> '[' !in p
  {
    if parts != [] {
      var front, last := parts[..|parts| - 1], parts[|parts| - 1];
      UnbracketedMeans(front);
      assert parts == front + [last];
      assert last in parts;
    }
  }

  /** No bracket in any part, no bracket in the whole. */
  lemma {:induction false} BracketInPart(s: string)
    ensures '[' !in s <==> Unbracketed(SplitDots(s))
  {
    if s == [] { return; }
    var front, c := s[..|s| - 1], s[|s| - 1];
    BracketInPart(front);
    assert s == front + [c];
    var before, parts := SplitDots(front), SplitDots(s);
    assert parts[..|parts| - 1] == if c == '.' then before else before[..|before| - 1];
  }

  function Join(parts: seq<string>): string {
    if parts == [] then "" else if |parts| == 1 then parts[0] else Join(parts[..|parts| - 1]) + "." + parts[|parts| - 1]
  }

  /** Splitting loses nothing. */
  lemma {:induction false} JoinSplit(s: string)
    ensures Join(SplitDots(s)) == s
  {
    if s == [] { return; }
    var front, c := s[..|s| - 1], s[|s| - 1];
    JoinSplit(front);
    var before, parts := SplitDots(front), SplitDots(s);
    assert parts[..|parts| - 1] == if c == '.' then before else before[..|before| - 1];
    assert s == front + [c];
  }

  /** In a coherent nested map a dotted path finds the string its flat key holds, and nothing else. */
  lemma LookupAgrees(order: seq<string>, flat: FlatMap, path: string)
    requires CoherentFlat(flat) && IsOrder(order, flat) && Nest(order, flat).Some?
    ensures StringAt(Nest(order, flat).value, path) == StringOf(flat, path)
  {
    OrderIsCoherent(order, flat);
    if StringOf(flat, path).Some? { FlatIsFound(order, flat, path); }
    if StringAt(Nest(order, flat).value, path).Some? { FoundIsFlat(order, flat, path); }
  }

  /** Looking paths up one after the other in the nested form agrees with looking them up in the flat map. */
  lemma {:induction false} FirstLookupAgrees(order: seq<string>, flat: FlatMap, paths: seq<string>)
    requires CoherentFlat(flat) && IsOrder(order, flat) && Nest(order, flat).Some?
    ensures FirstStringAt(Nest(order, flat).value, paths) == FirstStringOf(flat, paths)
  {
    if paths != [] {
      LookupAgrees(order, flat, paths[0]);
      FirstLookupAgrees(order, flat, paths[1..]);
    }
  }

  lemma FlatIsFound(order: seq<string>, flat: FlatMap, path: string)
    requires Readable(flat) && IsOrder(order, flat) && Nest(order, flat).Some?
    requires Coherent(EntriesOf(order, flat)) && path in flat && '[' !in path
    ensures Get(Nest(order, flat).value, FieldsOf(SplitDots(path))) == Full(Leaf(flat[path]))
  {
    BracketInPart(path);
    UnbracketedMeans(SplitDots(path));
    PlainSegments(SplitDots(path));
    var e := Entry(PathOf(path), flat[path]);
    EntryOfKey(order, flat, e);
    EntryIsBuilt(ROOT, EntriesOf(order, flat), e);
  }

  lemma FoundIsFlat(order: seq<string>, flat: FlatMap, path: string)
    requires Readable(flat) && IsOrder(order, flat) && Nest(order, flat).Some?
    requires StringAt(Nest(order, flat).value, path).Some?
    ensures StringOf(flat, path).Some?
  {
    var q, x := FieldsOf(SplitDots(path)), Text(StringAt(Nest(order, flat).value, path).value);
    BuiltLeafIsEntry(ROOT, EntriesOf(order, flat), q, x);
    assert Get(ROOT, q) == Empty;
    EntryOfKey(order, flat, Entry(q, x));
    var k :| k in flat && Entry(q, x) == Entry(PathOf(k), flat[k]);
    PlainKey(k, path);
  }

  /** A key that reads as the plain names of a path is that path. */
  lemma PlainKey(k: string, path: string)
    requires WellFormed(k) && PathOf(k) == FieldsOf(SplitDots(path))
    ensures k == path && '[' !in path
  {
    PlainParts(k, path);
    BracketInPart(k);
    JoinSplit(k);
    JoinSplit(path);
  }

  lemma PlainParts(k: string, path: string)
    requires WellFormed(k) && PathOf(k) == FieldsOf(SplitDots(path))
    ensures SplitDots(k) == SplitDots(path) && Unbracketed(SplitDots(k))
  {
    var parts := SplitDots(k);
    PlainSegments(parts);
    UnbracketedMeans(parts);
    SameFields(parts, SplitDots(path));
  }

  lemma SameFields(xs: seq<string>, ys: seq<string>)
    requires FieldsOf(xs) == FieldsOf(ys)
    ensures xs == ys
  {
  }
}
