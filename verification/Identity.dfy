/** When flattening and nesting a value gives back the value itself. */
module Identity {
  import opened Wrappers
  import opened GoStrings
  import opened Trees
  import opened Building
  import opened Keys
  import opened Flatten
  import opened FlatMaps
  import opened RoundTrip
  import opened Wholes

  // ---------- When the image is the document itself ----------

  /** The document as a tree, every container kept. */
  function Plain(doc: Doc): Tree
    decreases doc, 0
  {
    match doc
    case Atom(scalar) => Leaf(scalar)
    case Named(fields) => Map(PlainEntries(fields))
    case Listed(elems) => Slice(PlainItems(elems))
  }

  function PlainEntries(fields: seq<Part>): (r: map<string, Tree>)
    decreases fields, 1
  {
    if fields == [] then NO_ENTRIES else PlainEntries(fields[1..])[fields[0].name := Plain(fields[0].doc)]
  }

  function PlainItems(elems: seq<Doc>): seq<Slot>
    decreases elems, 1
  {
    if elems == [] then [] else [Full(Plain(elems[0]))] + PlainItems(elems[1..])
  }

  predicate NoEmptyContainer(doc: Doc)
    decreases doc
  {
    match doc
    case Atom(_) => true
    case Named(fields) => fields != [] && forall f :: f in fields ==> NoEmptyContainer(f.doc)
    case Listed(elems) => elems != [] && forall e :: e in elems ==> NoEmptyContainer(e)
  }

  lemma {:induction false} EntriesAt(fields: seq<Part>, k: nat)
    requires DistinctParts(fields) && k < |fields|
    ensures fields[k].name in PlainEntries(fields)
    ensures PlainEntries(fields)[fields[k].name] == Plain(fields[k].doc)
    ensures fields[k].name in ImageEntries(fields) <==> Image(fields[k].doc).Full?
    ensures Image(fields[k].doc).Full? ==> ImageEntries(fields)[fields[k].name] == Image(fields[k].doc).tree
    decreases |fields|
  {
    if k > 0 { EntriesAt(fields[1..], k - 1); }
  }

  lemma {:induction false} ItemsAt(elems: seq<Doc>, k: nat)
    requires k < |elems|
    ensures |PlainItems(elems)| == |elems|
    ensures ImageItems(elems)[k] == Image(elems[k]) && PlainItems(elems)[k] == Full(Plain(elems[k]))
  {
    if |elems| > 1 { ItemsAt(elems[1..], if k > 0 then k - 1 else 0); }
  }

  lemma {:induction false} SameEntriesIfPlain(fields: seq<Part>)
    requires forall f :: f in fields ==> Image(f.doc) == Full(Plain(f.doc))
    ensures ImageEntries(fields) == PlainEntries(fields)
  {
    if fields != [] {
      assert fields[0] in fields;
      SameEntriesIfPlain(fields[1..]);
    }
  }

  /** Nesting gives back the document itself exactly when it holds no empty container. */
  lemma {:induction false} IdentityExactly(doc: Doc)
    requires DistinctNames(doc)
    ensures Image(doc) == Full(Plain(doc)) <==> NoEmptyContainer(doc)
    decreases doc
  {
    match doc
    case Atom(_) =>
    case Named(fields) =>
      forall f | f in fields ensures Image(f.doc) == Full(Plain(f.doc)) <==> NoEmptyContainer(f.doc) {
        IdentityExactly(f.doc);
      }
      if NoEmptyContainer(doc) {
        SameEntriesIfPlain(fields);
        EntriesAt(fields, 0);
      }
      if Image(doc) == Full(Plain(doc)) {
        forall k | 0 <= k < |fields| ensures Image(fields[k].doc) == Full(Plain(fields[k].doc)) {
          EntriesAt(fields, k);
        }
      }
    case Listed(elems) =>
      forall e | e in elems ensures Image(e) == Full(Plain(e)) <==> NoEmptyContainer(e) { IdentityExactly(e); }
      forall k | 0 <= k < |elems|
        ensures ImageItems(elems)[k] == Image(elems[k])
        ensures |PlainItems(elems)| == |elems| && PlainItems(elems)[k] == Full(Plain(elems[k]))
      {
        ItemsAt(elems, k);
      }
      if NoEmptyContainer(doc) {
        assert ImageItems(elems) == PlainItems(elems);
      }
      if Image(doc) == Full(Plain(doc)) {
        assert Trim(ImageItems(elems)) == PlainItems(elems);
        assert ImageItems(elems)[..|elems|] == ImageItems(elems);
      }
  }

  /** A list directly in a list does not come back: its elements are printed apart but read as one. */
  lemma {:induction false} ListInListCollides(p: Path, j: nat, k: nat)
    requires CleanPath(p) && p[|p| - 1].Index? && j < MAX_INT && k < MAX_INT
    ensures WellFormed(KeyOf(p + [Index(j)])) && WellFormed(KeyOf(p + [Index(k)]))
    ensures PathOf(KeyOf(p + [Index(j)])) == PathOf(KeyOf(p + [Index(k)]))
  {
    var q, r := p + [Index(j)], p + [Index(k)];
    if BlankFirst(p) {
      BlankIsLost(q);
      BlankIsLost(r);
      assert q[1..] == p[1..] + [Index(j)] && r[1..] == p[1..] + [Index(k)];
      ListInListCollides(p[1..], j, k);
    } else {
      CollapseIndex(p, j);
      CollapseIndex(p, k);
      PrintedKeyReadsAs(q);
      PrintedKeyReadsAs(r);
    }
  }

  // ---------- What nesting can build ----------

  /**
   * A tree that keys can build below an index or elsewhere: no container is empty, no slice is directly in a slice,
   * and no name has a separator or NUL in it.
   */
  predicate Plausible(t: Tree, listed: bool) {
    match t
    case Leaf(_) => true
    case Map(entries) =>
      entries != NO_ENTRIES && forall n :: n in entries ==> CleanName(n) && Plausible(entries[n], false)
    case Slice(items) =>
      !listed && items != [] && forall i :: 0 <= i < |items| && items[i].Full? ==> Plausible(items[i].tree, true)
  }

  predicate PlausibleSlot(at: Slot, listed: bool) { at.Full? ==> Plausible(at.tree, listed) }

  /** The path of a key, or what is left of one below an index. */
  predicate ReadablePath(p: Path, listed: bool) {
    && !Keys.Nested(p) && (forall s :: s in p && s.Field? ==> CleanName(s.name))
    && (listed && p != [] ==> p[0].Field?)
  }

  lemma ReadableTail(p: Path, listed: bool)
    requires ReadablePath(p, listed) && p != []
    ensures ReadablePath(p[1..], p[0].Index?)
  {
    assert forall k :: 0 < k < |p[1..]| ==> p[1..][k - 1] == p[k] && p[1..][k] == p[k + 1];
    assert p[0].Index? && |p| > 1 ==> !p[1].Index?;
  }

  lemma {:induction false} InsertKeepsPlausible(at: Slot, p: Path, v: Scalar, listed: bool)
    requires PlausibleSlot(at, listed) && ReadablePath(p, listed) && Insert(at, p, v).Some?
    ensures Plausible(Insert(at, p, v).value, listed)
    decreases |p|
  {
    if p != [] {
      ReadableTail(p, listed);
      InsertKeepsPlausible(Child(at, p[0]), p[1..], v, p[0].Index?);
    }
  }

  lemma {:induction false} BuildKeepsPlausible(at: Slot, es: seq<Entry>)
    requires PlausibleSlot(at, false) && (forall e :: e in es ==> ReadablePath(e.path, false)) && Build(at, es).Some?
    ensures PlausibleSlot(Build(at, es).value, false)
    decreases |es|
  {
    if es != [] {
      InsertKeepsPlausible(at, es[0].path, es[0].value, false);
      BuildKeepsPlausible(Full(Insert(at, es[0].path, es[0].value).value), es[1..]);
    }
  }

  /** The root, to which a key adds no map under the empty name unless it reads as a blank in front of another. */
  predicate NoBlankMap(root: Tree) { root.Map? && ("" in root.entries ==> !root.entries[""].Map?) }

  lemma InsertKeepsNoBlank(root: Tree, p: Path, v: Scalar)
    requires NoBlankMap(root) && p != [] && p[0].Field? && !BlankFirst(p) && Insert(Full(root), p, v).Some?
    ensures NoBlankMap(Insert(Full(root), p, v).value)
  {
    var t := Insert(Child(Full(root), p[0]), p[1..], v).value;
    if p[0] == Field("") && |p| > 1 { assert p[1..][0] == p[1] && p[1].Index?; }
  }

  lemma {:induction false} BuildKeepsNoBlank(root: Tree, es: seq<Entry>)
    requires NoBlankMap(root) && Build(Full(root), es).Some?
    requires forall e :: e in es ==> e.path != [] && e.path[0].Field? && !BlankFirst(e.path)
    ensures Build(Full(root), es).value.Full? && NoBlankMap(Build(Full(root), es).value.tree)
    decreases |es|
  {
    if es != [] {
      InsertKeepsNoBlank(root, es[0].path, es[0].value);
      BuildKeepsNoBlank(Insert(Full(root), es[0].path, es[0].value).value, es[1..]);
    }
  }

  // ---------- The documents that can be built ----------

  /** No list is longer than an int can count. */
  predicate Sized(doc: Doc)
    decreases doc
  {
    match doc
    case Atom(_) => true
    case Named(fields) => forall f :: f in fields ==> Sized(f.doc)
    case Listed(elems) => |elems| <= MAX_INT && forall e :: e in elems ==> Sized(e)
  }

  /** A document whose tree is plausible has no empty container, no list directly in a list, and clean names. */
  lemma {:induction false} PlausibleIsClean(doc: Doc, listed: bool)
    requires DistinctNames(doc) && Sized(doc) && Plausible(Plain(doc), listed)
    ensures NoEmptyContainer(doc) && Clean(doc, listed)
    decreases doc
  {
    match doc
    case Atom(_) =>
    case Named(fields) =>
      assert fields == [] ==> PlainEntries(fields) == NO_ENTRIES;
      forall f | f in fields ensures NoEmptyContainer(f.doc) && CleanName(f.name) && Clean(f.doc, false) {
        var k :| 0 <= k < |fields| && fields[k] == f;
        EntriesAt(fields, k);
        PlausibleIsClean(f.doc, false);
      }
    case Listed(elems) =>
      assert elems == [] ==> PlainItems(elems) == [];
      forall e | e in elems ensures NoEmptyContainer(e) && Clean(e, true) {
        var k :| 0 <= k < |elems| && elems[k] == e;
        ItemsAt(elems, k);
        PlausibleIsClean(e, true);
      }
  }

  lemma {:induction false} FieldMapKeys(fields: seq<Stored>, k: string)
    requires k in FieldMap(fields)
    ensures exists i :: 0 <= i < |fields| && fields[i].name == k
    decreases |fields|
  {
    var last := fields[|fields| - 1];
    if k == last.name {
      assert fields[|fields| - 1].name == k;
    } else {
      FieldMapKeys(fields[..|fields| - 1], k);
      var i :| 0 <= i < |fields| - 1 && fields[..|fields| - 1][i].name == k;
      assert fields[i].name == k;
    }
  }

  /** Every key of the flat map is a printed leaf path, cut at NUL. */
  lemma DumpedKey(v: Value, k: string) returns (e: Entry)
    requires k in FieldMap(Dump("", v, 0))
    ensures e in Leaves(Shape(v, 0)) && k == CString(KeyOf(e.path)) && NUL !in k
  {
    DumpPrintsLeaves([], v, 0);
    e := PrintedKey(Leaves(Shape(v, 0)), k);
  }

  lemma PrintedKey(es: seq<Entry>, k: string) returns (e: Entry)
    requires k in FieldMap(Print([], es))
    ensures e in es && k == CString(KeyOf(e.path)) && NUL !in k
  {
    FieldMapKeys(Print([], es), k);
    var i :| 0 <= i < |es| && Print([], es)[i].name == k;
    e := es[i];
    assert [] + e.path == e.path;
  }

  /** The paths that the keys of a flattened value read as. */
  lemma DumpedKeysArePlain(v: Value, order: seq<string>, e: Entry)
    requires IsOrder(order, FieldMap(Dump("", v, 0))) && Readable(FieldMap(Dump("", v, 0)))
    requires e in EntriesOf(order, FieldMap(Dump("", v, 0)))
    ensures ReadablePath(e.path, false) && e.path != [] && e.path[0].Field?
    ensures Shape(v, 0).Named? && Clean(Shape(v, 0), false) ==> !BlankFirst(e.path)
  {
    var flat := FieldMap(Dump("", v, 0));
    EntryOfKey(order, flat, e);
    var k :| k in flat && e == Entry(PathOf(k), flat[k]);
    var leaf := DumpedKey(v, k);
    KeyIsPlain(k);
    if Shape(v, 0).Named? && Clean(Shape(v, 0), false) {
      LeafPathsArePlain(Shape(v, 0), false, leaf);
      KeyHasNoNul(leaf.path);
      PrintedHasNoDotFirst(leaf.path);
      if BlankFirst(PathOf(k)) { BlankNeedsDot(k); }
    }
  }

  // ---------- What a cut loses ----------

  lemma {:induction false} LeafUnderName(fields: seq<Part>, k: nat, e: Entry)
    requires k < |fields| && e in Leaves(fields[k].doc)
    ensures Entry([Field(fields[k].name)] + e.path, e.value) in NamedLeaves(fields)
    decreases k
  {
    if k > 0 {
      LeafUnderName(fields[1..], k - 1, e);
    } else {
      LeafUnderStep(Field(fields[0].name), Leaves(fields[0].doc), e);
    }
  }

  lemma {:induction false} LeafUnderIndex(elems: seq<Doc>, from: nat, k: nat, e: Entry)
    requires k < |elems| && e in Leaves(elems[k])
    ensures Entry([Index(from + k)] + e.path, e.value) in ListedLeaves(elems, from)
    decreases k
  {
    if k > 0 {
      LeafUnderIndex(elems[1..], from + 1, k - 1, e);
    } else {
      LeafUnderStep(Index(from), Leaves(elems[0]), e);
    }
  }

  lemma LeafUnderStep(s: Step, es: seq<Entry>, e: Entry)
    requires e in es
    ensures Entry([s] + e.path, e.value) in Under(s, es)
  {
    var i :| 0 <= i < |es| && es[i] == e;
    assert Under(s, es)[i] == Entry([s] + e.path, e.value);
  }

  lemma LeafOfName(fields: seq<Part>, k: nat, e: Entry)
    requires k < |fields| && DistinctParts(fields)
    requires Entry([Field(fields[k].name)] + e.path, e.value) in NamedLeaves(fields)
    ensures e in Leaves(fields[k].doc)
  {
    var longer := Entry([Field(fields[k].name)] + e.path, e.value);
    NamedHeads(fields, longer);
    var j :| 0 <= j < |fields| && LeafOfPart(fields[j], longer);
    assert fields[j].name == fields[k].name && longer.path[1..] == e.path;
  }

  /** A document without empty containers has a leaf, and not at its top unless it is one. */
  lemma {:induction false} SomeLeaf(doc: Doc) returns (e: Entry)
    requires NoEmptyContainer(doc)
    ensures e in Leaves(doc) && (e.path == [] <==> doc.Atom?)
  {
    match doc
    case Atom(scalar) => e := Entry([], scalar);
    case Named(fields) =>
      e := SomeLeaf(fields[0].doc);
      LeafUnderName(fields, 0, e);
      e := Entry([Field(fields[0].name)] + e.path, e.value);
    case Listed(elems) =>
      e := SomeLeaf(elems[0]);
      LeafUnderIndex(elems, 0, 0, e);
      e := Entry([Index(0)] + e.path, e.value);
  }

  /** If none of the leaves has been lost, nothing has been cut. */
  lemma {:induction false} CutLosesLeaf(cut: Doc, doc: Doc)
    requires CutFrom(cut, doc) && NoEmptyContainer(doc) && DistinctNames(cut)
    requires forall e :: e in Leaves(doc) ==> e in Leaves(cut)
    ensures cut == doc
    decreases doc
  {
    var some := SomeLeaf(doc);
    match doc
    case Atom(_) =>
    case Named(fields) =>
      forall k | 0 <= k < |fields| ensures cut.Named? && cut.fields[k] == fields[k] {
        forall e | e in Leaves(fields[k].doc) ensures e in Leaves(cut.fields[k].doc) {
          LeafUnderName(fields, k, e);
          LeafOfName(cut.fields, k, e);
        }
        CutLosesLeaf(cut.fields[k].doc, fields[k].doc);
      }
    case Listed(elems) =>
      forall k | 0 <= k < |elems| ensures cut.Listed? && cut.elems[k] == elems[k] {
        forall e | e in Leaves(elems[k]) ensures e in Leaves(cut.elems[k]) {
          LeafUnderIndex(elems, 0, k, e);
          var longer := Entry([Index(k)] + e.path, e.value);
          ListedHeads(cut.elems, 0, longer);
          assert longer.path[1..] == e.path;
        }
        CutLosesLeaf(cut.elems[k], elems[k]);
      }
  }

  /** Cutting makes nothing unclean and empties nothing. */
  lemma {:induction false} CutIsClean(cut: Doc, doc: Doc, listed: bool)
    requires CutFrom(cut, doc) && Clean(doc, listed)
    ensures Clean(cut, listed) && (NoEmptyContainer(doc) ==> NoEmptyContainer(cut))
    decreases doc
  {
    match doc
    case Atom(_) =>
    case Named(fields) =>
      if cut.Named? {
        forall k | 0 <= k < |fields|
          ensures CleanName(cut.fields[k].name) && Clean(cut.fields[k].doc, false)
          ensures NoEmptyContainer(fields[k].doc) ==> NoEmptyContainer(cut.fields[k].doc)
        {
          assert fields[k] in fields;
          CutIsClean(cut.fields[k].doc, fields[k].doc, false);
        }
      }
    case Listed(elems) =>
      if cut.Listed? {
        forall k | 0 <= k < |elems|
          ensures Clean(cut.elems[k], true) && (NoEmptyContainer(elems[k]) ==> NoEmptyContainer(cut.elems[k]))
        {
          assert elems[k] in elems;
          CutIsClean(cut.elems[k], elems[k], true);
        }
      }
  }

  // ---------- Identity ----------

  /**
   * What survives flattening and nesting: clean names, no empty name at the top in front of a named child, no list
   * directly in a list, and no empty container.
   */
  predicate Faithful(fields: seq<Part>) {
    Clean(Named(fields), false) && NoBlankTop(fields) && NoEmptyContainer(Named(fields))
  }

  lemma CutKeepsKind(cut: Doc, doc: Doc)
    requires CutFrom(cut, doc) && cut.Named?
    ensures doc.Named?
  {
  }

  lemma CutHasNoBlank(cuts: seq<Part>, parts: seq<Part>)
    requires PartsCutFrom(cuts, parts) && NoBlankTop(parts)
    ensures NoBlankTop(cuts)
  {
    forall f | f in cuts ensures f.name != "" || !f.doc.Named? {
      var k :| 0 <= k < |cuts| && cuts[k] == f;
      assert parts[k] in parts && CutFrom(cuts[k].doc, parts[k].doc);
      if f.doc.Named? { CutKeepsKind(f.doc, parts[k].doc); }
    }
  }

  lemma CutIsFaithful(cut: Doc, doc: Doc)
    requires cut.Named? && doc.Named? && CutFrom(cut, doc) && Faithful(doc.fields)
    ensures Faithful(cut.fields)
  {
    CutIsClean(cut, doc, false);
    CutHasNoBlank(cut.fields, doc.fields);
  }

  lemma FaithfulShape(v: Value)
    requires Shape(v, 0).Named? && Whole(v).Named? && Faithful(Whole(v).fields)
    ensures Faithful(Shape(v, 0).fields)
  {
    ShapeIsWholeExactly(v, 0);
    CutIsFaithful(Shape(v, 0), Whole(v));
  }

  /** The leaves of a document without empty containers build the document; nothing does without one of them. */
  lemma PlainIsBuilt(fields: seq<Part>)
    requires DistinctNames(Named(fields)) && NoEmptyContainer(Named(fields))
    ensures Build(ROOT, Leaves(Named(fields))) == Some(Full(Plain(Named(fields))))
  {
    BuildRoot(fields);
    IdentityExactly(Named(fields));
    EntriesAt(fields, 0);
  }

  lemma PlainNeedsLeaves(fields: seq<Part>, es: seq<Entry>, e: Entry)
    requires DistinctNames(Named(fields)) && NoEmptyContainer(Named(fields)) && e in Leaves(Named(fields))
    requires Build(ROOT, es) == Some(Full(Plain(Named(fields))))
    ensures e in es
  {
    PlainIsBuilt(fields);
    LeavesAreCoherent(Named(fields));
    EntryIsBuilt(ROOT, Leaves(Named(fields)), e);
    BuiltLeafIsEntry(ROOT, es, e.path, e.value);
  }

  /** The fields of a clean struct read as its leaves. */
  lemma CleanFields(v: Value)
    requires Shape(v, 0).Named? && Clean(Shape(v, 0), false) && NoBlankTop(Shape(v, 0).fields)
    ensures Matches(Dump("", v, 0), Leaves(Shape(v, 0))) && Coherent(Leaves(Shape(v, 0)))
  {
    DumpPrintsLeaves([], v, 0);
    PrintedLeavesMatch(Shape(v, 0).fields);
    CleanIsDistinct(Shape(v, 0), false);
    LeavesAreCoherent(Shape(v, 0));
  }

  lemma FaithfulFields(v: Value)
    requires Shape(v, 0).Named? && Faithful(Shape(v, 0).fields)
    ensures Matches(Dump("", v, 0), Leaves(Shape(v, 0))) && Coherent(Leaves(Shape(v, 0)))
    ensures Build(ROOT, Leaves(Shape(v, 0))) == Some(Full(Plain(Shape(v, 0))))
  {
    CleanFields(v);
    CleanIsDistinct(Shape(v, 0), false);
    PlainIsBuilt(Shape(v, 0).fields);
  }

  /** The value itself is built from leaves of its shape only if all of it is there. */
  lemma WholeIsIntact(v: Value, es: seq<Entry>)
    requires Shape(v, 0).Named? && Whole(v).Named? && Faithful(Whole(v).fields)
    requires forall e :: e in es ==> e in Leaves(Shape(v, 0))
    requires Build(ROOT, es) == Some(Full(Plain(Whole(v))))
    ensures Intact(v, 0)
  {
    var cut, doc := Shape(v, 0), Whole(v);
    FaithfulShape(v);
    ShapeIsWholeExactly(v, 0);
    CleanIsDistinct(doc, false);
    CleanIsDistinct(cut, false);
    forall e | e in Leaves(doc) ensures e in Leaves(cut) { PlainNeedsLeaves(doc.fields, es, e); }
    CutLosesLeaf(cut, doc);
  }

  /** Of the keys of a faithful struct, visited in any order, the value is built exactly when it is intact. */
  lemma FaithfulIsIdentityExactly(v: Value, order: seq<string>)
    requires Shape(v, 0).Named? && Whole(v).Named? && Faithful(Whole(v).fields)
    requires IsOrder(order, FieldMap(Dump("", v, 0)))
    ensures CoherentFlat(FieldMap(Dump("", v, 0)))
    ensures Nest(order, FieldMap(Dump("", v, 0))) == Some(Full(Plain(Whole(v)))) <==> Intact(v, 0)
  {
    FaithfulShape(v);
    FaithfulFields(v);
    MatchingNest(Dump("", v, 0), Leaves(Shape(v, 0)), order);
    ShapeIsWholeExactly(v, 0);
    if Build(ROOT, Leaves(Shape(v, 0))) == Some(Full(Plain(Whole(v)))) { WholeIsIntact(v, Leaves(Shape(v, 0))); }
  }

  lemma NestedIsPlausible(v: Value, order: seq<string>)
    requires IsOrder(order, FieldMap(Dump("", v, 0))) && Readable(FieldMap(Dump("", v, 0)))
    requires Nest(order, FieldMap(Dump("", v, 0))).Some?
    ensures var at := Nest(order, FieldMap(Dump("", v, 0))).value; at == ROOT || PlausibleSlot(at, false)
  {
    var es := EntriesOf(order, FieldMap(Dump("", v, 0)));
    forall e | e in es ensures ReadablePath(e.path, false) { DumpedKeysArePlain(v, order, e); }
    if es != [] {
      DumpedKeysArePlain(v, order, es[0]);
      WritableAtRoot(es[0].path, es[0].value);
      InsertKeepsPlausible(Empty, es[0].path, es[0].value, false);
      BuildKeepsPlausible(Full(Insert(ROOT, es[0].path, es[0].value).value), es[1..]);
    }
  }

  lemma NestedHasNoBlank(v: Value, order: seq<string>)
    requires IsOrder(order, FieldMap(Dump("", v, 0))) && Readable(FieldMap(Dump("", v, 0)))
    requires Shape(v, 0).Named? && Clean(Shape(v, 0), false) && Nest(order, FieldMap(Dump("", v, 0))).Some?
    ensures var at := Nest(order, FieldMap(Dump("", v, 0))).value; at.Full? && NoBlankMap(at.tree)
  {
    var es := EntriesOf(order, FieldMap(Dump("", v, 0)));
    forall e | e in es ensures e.path != [] && e.path[0].Field? && !BlankFirst(e.path) {
      DumpedKeysArePlain(v, order, e);
    }
    BuildKeepsNoBlank(ROOT.tree, es);
  }

  lemma IdentityIsFaithful(v: Value, order: seq<string>)
    requires Shape(v, 0).Named? && Whole(v).Named? && Whole(v).fields != []
    requires DistinctNames(Whole(v)) && Sized(Whole(v))
    requires IsOrder(order, FieldMap(Dump("", v, 0))) && Readable(FieldMap(Dump("", v, 0)))
    requires Nest(order, FieldMap(Dump("", v, 0))) == Some(Full(Plain(Whole(v))))
    ensures Faithful(Whole(v).fields)
  {
    var doc, fields := Whole(v), Whole(v).fields;
    EntriesAt(fields, 0);
    NestedIsPlausible(v, order);
    PlausibleIsClean(doc, false);
    ShapeIsWholeExactly(v, 0);
    CutIsClean(Shape(v, 0), doc, false);
    NestedHasNoBlank(v, order);
    forall f | f in fields ensures f.name != "" || !f.doc.Named? {
      var k :| 0 <= k < |fields| && fields[k] == f;
      EntriesAt(fields, k);
    }
  }

  /**
   * Flatten, then nest, is the identity exactly on faithful structs that are intact, whatever order the keys are
   * visited in. The names must be different for there to be a tree at all, and the keys well formed for the helper
   * not to panic.
   */
  lemma RoundTripIsIdentityExactly(v: Value, order: seq<string>)
    requires Shape(v, 0).Named? && Whole(v).Named? && Whole(v).fields != []
    requires DistinctNames(Whole(v)) && Sized(Whole(v))
    requires IsOrder(order, FieldMap(Dump("", v, 0))) && Readable(FieldMap(Dump("", v, 0)))
    ensures Nest(order, FieldMap(Dump("", v, 0))) == Some(Full(Plain(Whole(v))))
       <==> Faithful(Whole(v).fields) && Intact(v, 0)
  {
    if Faithful(Whole(v).fields) { FaithfulIsIdentityExactly(v, order); }
    if Nest(order, FieldMap(Dump("", v, 0))) == Some(Full(Plain(Whole(v)))) { IdentityIsFaithful(v, order); }
  }

  // ---------- Structs that do not come back ----------

  /** Text after a NUL is lost: the struct meets every other condition, and no order gives it back. */
  lemma NulIsLost(order: seq<string>)
    ensures var v := Struct([Member("a", Atomic(['x', NUL, 'y']))]);
      && Whole(v).Named? && Faithful(Whole(v).fields)
      && (IsOrder(order, FieldMap(Dump("", v, 0))) ==>
            CoherentFlat(FieldMap(Dump("", v, 0))) &&
            Nest(order, FieldMap(Dump("", v, 0))) != Some(Full(Plain(Whole(v)))))
  {
    var v := Struct([Member("a", Atomic(['x', NUL, 'y']))]);
    assert v.fields[0] in v.fields && !Intact(v.fields[0].value, 1);
    if IsOrder(order, FieldMap(Dump("", v, 0))) { FaithfulIsIdentityExactly(v, order); }
  }

  /** So is what lies more than 64 levels down, here below as many optionals. */
  lemma DepthIsLost(text: string, order: seq<string>)
    requires text != "<depth-limit>"
    ensures var v := Struct([Member("a", Wrapped(MAX_DEPTH, Atomic(text)))]);
      && Whole(v).Named? && Faithful(Whole(v).fields)
      && (IsOrder(order, FieldMap(Dump("", v, 0))) ==>
            CoherentFlat(FieldMap(Dump("", v, 0))) &&
            Nest(order, FieldMap(Dump("", v, 0))) != Some(Full(Plain(Whole(v)))))
  {
    var v := Struct([Member("a", Wrapped(MAX_DEPTH, Atomic(text)))]);
    WrappedIsCut(MAX_DEPTH, text, 1);
    assert v.fields[0] in v.fields && !Intact(v.fields[0].value, 1);
    if IsOrder(order, FieldMap(Dump("", v, 0))) { FaithfulIsIdentityExactly(v, order); }
  }

  function Wrapped(n: nat, v: Value): Value { if n == 0 then v else Optional(Some(Wrapped(n - 1, v))) }

  lemma {:induction false} WrappedIsCut(n: nat, text: string, depth: nat)
    ensures Whole(Wrapped(n, Atomic(text))) == Atom(Text(text))
    ensures depth + n > MAX_DEPTH && text != "<depth-limit>" ==> !Intact(Wrapped(n, Atomic(text)), depth)
  {
    if n > 0 { WrappedIsCut(n - 1, text, depth + 1); }
  }
}
