/** Flattening a document and nesting its fields again. */
module RoundTrip {
  import opened Wrappers
  import opened GoStrings
  import opened Sequences
  import opened Trees
  import opened Building
  import opened Keys
  import opened Flatten
  import opened FlatMaps

  // ---------- The tree that comes back ----------

  /** Slots without the nil ones at the end: nothing was ever written there. */
  function Trim(items: seq<Slot>): (r: seq<Slot>)
    ensures |r| <= |items| && r == items[..|r|]
  {
    if items == [] || items[|items| - 1].Full? then items else Trim(items[..|items| - 1])
  }

  /** A document as a tree; a container without leaves leaves nothing behind. */
  function Image(doc: Doc): Slot
    decreases doc, 0
  {
    match doc
    case Atom(scalar) => Full(Leaf(scalar))
    case Named(fields) => var m := ImageEntries(fields); if m == NO_ENTRIES then Empty else Full(Map(m))
    case Listed(elems) => SliceSlot(ImageItems(elems))
  }

  function SliceSlot(items: seq<Slot>): Slot {
    if Trim(items) == [] then Empty else Full(Slice(Trim(items)))
  }

  function ImageEntries(fields: seq<Part>): (r: map<string, Tree>)
    ensures forall n :: n in r ==> exists k :: 0 <= k < |fields| && fields[k].name == n
    decreases fields, 1
  {
    if fields == [] then NO_ENTRIES else
    var rest := ImageEntries(fields[1..]);
    match Image(fields[0].doc)
    case Empty => rest
    case Full(t) => rest[fields[0].name := t]
  }

  function ImageItems(elems: seq<Doc>): (r: seq<Slot>)
    ensures |r| == |elems|
    decreases elems, 1
  {
    if elems == [] then [] else [Image(elems[0])] + ImageItems(elems[1..])
  }

  predicate DistinctParts(fields: seq<Part>) {
    forall i, j :: 0 <= i < j < |fields| ==> fields[i].name != fields[j].name
  }

  predicate DistinctNames(doc: Doc)
    decreases doc
  {
    match doc
    case Atom(_) => true
    case Named(fields) => DistinctParts(fields) && forall f :: f in fields ==> DistinctNames(f.doc)
    case Listed(elems) => forall e :: e in elems ==> DistinctNames(e)
  }

  // ---------- Building the leaves builds the image ----------

  /** Writing below one step is writing at the child. */
  lemma {:induction false} BuildUnder(at: Slot, s: Step, es: seq<Entry>)
    requires Opens(at, s)
    ensures Build(at, Under(s, es)) ==
      if es == [] then Some(at)
      else match Build(Child(at, s), es)
        case Some(Full(t)) => Some(Full(Put(at, s, t)))
        case _ => None
    decreases |es|
  {
    if es == [] { return; }
    var below := Under(s, es);
    assert below[1..] == Under(s, es[1..]);
    assert below[0].path[0] == s && below[0].path[1..] == es[0].path;
    var t := Insert(Child(at, s), es[0].path, es[0].value);
    if t.Some? {
      PutSame(at, s, t.value, t.value);
      var at' := Full(Put(at, s, t.value));
      BuildUnder(at', s, es[1..]);
      if Build(Full(t.value), es[1..]).Some? {
        BuiltIsFull(Full(t.value), es[1..]);
        PutSame(at, s, t.value, Build(Full(t.value), es[1..]).value.tree);
      }
    }
  }

  lemma {:induction false} BuildImage(doc: Doc)
    requires DistinctNames(doc)
    ensures Build(Empty, Leaves(doc)) == Some(Image(doc))
    ensures Image(doc).Empty? <==> Leaves(doc) == []
    decreases doc, 0
  {
    if Leaves(doc) != [] && Build(Empty, Leaves(doc)).Some? { BuiltIsFull(Empty, Leaves(doc)); }
    match doc
    case Atom(scalar) =>
      assert Leaves(doc)[1..] == [];
    case Named(fields) =>
      BuildNamed(Empty, fields);
      assert NO_ENTRIES + ImageEntries(fields) == ImageEntries(fields);
    case Listed(elems) =>
      BuildListed([], elems);
      assert [] + ImageItems(elems) == ImageItems(elems);
  }

  lemma {:induction false} BuildNamed(at: Slot, fields: seq<Part>)
    requires at.Full? ==> at.tree.Map?
    requires DistinctParts(fields) && forall f :: f in fields ==> DistinctNames(f.doc) && f.name !in Entries(at)
    ensures Build(at, NamedLeaves(fields)) ==
      Some(if ImageEntries(fields) == NO_ENTRIES then at else Full(Map(Entries(at) + ImageEntries(fields))))
    decreases fields, 1
  {
    if fields != [] {
      var image, rest := Image(fields[0].doc), fields[1..];
      BuildImage(fields[0].doc);
      BuildFirstNamed(at, fields);
      var next := if image.Empty? then at else Full(Put(at, Field(fields[0].name), image.tree));
      BuildNamed(next, rest);
      NamedAfter(at, fields, next);
    }
  }

  /** The entries after the first field and the others are those of all. */
  lemma NamedAfter(at: Slot, fields: seq<Part>, next: Slot)
    requires fields != [] && (at.Full? ==> at.tree.Map?) && DistinctParts(fields)
    requires next ==
      if Image(fields[0].doc).Empty? then at else Full(Put(at, Field(fields[0].name), Image(fields[0].doc).tree))
    ensures
      (if ImageEntries(fields) == NO_ENTRIES then at else Full(Map(Entries(at) + ImageEntries(fields)))) ==
      (if ImageEntries(fields[1..]) == NO_ENTRIES then next else Full(Map(Entries(next) + ImageEntries(fields[1..]))))
  {
    NotInRest(fields);
    if Image(fields[0].doc).Full? {
      MergeLater(Entries(at), ImageEntries(fields[1..]), fields[0].name, Image(fields[0].doc).tree);
    }
  }

  /** Building the leaves of the first field puts its image under its name, if it has one. */
  lemma BuildFirstNamed(at: Slot, fields: seq<Part>)
    requires fields != [] && (at.Full? ==> at.tree.Map?) && fields[0].name !in Entries(at)
    requires Build(Empty, Leaves(fields[0].doc)) == Some(Image(fields[0].doc))
    requires Image(fields[0].doc).Empty? <==> Leaves(fields[0].doc) == []
    ensures var image := Image(fields[0].doc);
      Build(at, NamedLeaves(fields)) ==
        Build(if image.Empty? then at else Full(Put(at, Field(fields[0].name), image.tree)), NamedLeaves(fields[1..]))
  {
    var s, es := Field(fields[0].name), Leaves(fields[0].doc);
    BuildUnder(at, s, es);
    BuildConcat(at, Under(s, es), NamedLeaves(fields[1..]));
  }

  lemma NotInRest(fields: seq<Part>)
    requires fields != [] && DistinctParts(fields)
    ensures fields[0].name !in ImageEntries(fields[1..])
  {
    assert forall f :: f in fields[1..] ==> f.name != fields[0].name;
  }

  lemma MergeLater(m: map<string, Tree>, rest: map<string, Tree>, name: string, t: Tree)
    requires name !in rest
    ensures m[name := t] + rest == m + rest[name := t]
    ensures rest[name := t] != NO_ENTRIES
    ensures rest == NO_ENTRIES ==> m + rest[name := t] == m[name := t]
  {
    assert name in rest[name := t];
  }

  /** After the elements done, writing the leaves of the others completes the slice. */
  lemma {:induction false} BuildListed(done: seq<Slot>, elems: seq<Doc>)
    requires forall e :: e in elems ==> DistinctNames(e)
    ensures Build(SliceSlot(done), ListedLeaves(elems, |done|)) == Some(SliceSlot(done + ImageItems(elems)))
    decreases elems, 1
  {
    if elems == [] {
      assert done + [] == done;
    } else {
      var longer := done + [Image(elems[0])];
      BuildImage(elems[0]);
      BuildListed(longer, elems[1..]);
      BuildFirstListed(done, elems, longer);
    }
  }

  lemma BuildFirstListed(done: seq<Slot>, elems: seq<Doc>, longer: seq<Slot>)
    requires elems != [] && longer == done + [Image(elems[0])]
    requires Build(Empty, Leaves(elems[0])) == Some(Image(elems[0]))
    requires Image(elems[0]).Empty? <==> Leaves(elems[0]) == []
    ensures Build(SliceSlot(done), ListedLeaves(elems, |done|)) ==
      Build(SliceSlot(longer), ListedLeaves(elems[1..], |longer|))
    ensures done + ImageItems(elems) == longer + ImageItems(elems[1..])
  {
    BuildElement(done, elems[0], ListedLeaves(elems[1..], |longer|));
    Regroup(done, [Image(elems[0])], ImageItems(elems[1..]));
  }

  lemma BuildElement(done: seq<Slot>, elem: Doc, others: seq<Entry>)
    requires Build(Empty, Leaves(elem)) == Some(Image(elem)) && (Image(elem).Empty? <==> Leaves(elem) == [])
    ensures Build(SliceSlot(done), Under(Index(|done|), Leaves(elem)) + others) ==
      Build(SliceSlot(done + [Image(elem)]), others)
  {
    NextElement(done, Image(elem));
    BuildUnder(SliceSlot(done), Index(|done|), Leaves(elem));
    BuildConcat(SliceSlot(done), Under(Index(|done|), Leaves(elem)), others);
  }

  lemma {:induction false} TrimPads(items: seq<Slot>)
    ensures items == Trim(items) + seq(|items| - |Trim(items)|, _ => Empty)
  {
    if items != [] && items[|items| - 1].Empty? {
      TrimPads(items[..|items| - 1]);
      assert items == items[..|items| - 1] + [Empty];
    }
  }

  /** Growing a slice for the index after its elements pads what was trimmed off it, and one more. */
  lemma GrownByOne(done: seq<Slot>)
    ensures Grown(SliceSlot(done), |done|) == done + [Empty]
  {
    TrimPads(done);
  }

  /** The slot after the elements done is free, and filling it, or leaving it, adds the element. */
  lemma NextElement(done: seq<Slot>, image: Slot)
    ensures Child(SliceSlot(done), Index(|done|)) == Empty
    ensures SliceSlot(done + [image]) ==
      if image.Empty? then SliceSlot(done) else Full(Put(SliceSlot(done), Index(|done|), image.tree))
  {
    GrownByOne(done);
    assert (done + [image])[..|done|] == done;
    if image.Full? { assert (done + [Empty])[|done| := image] == done + [image]; }
  }

  // ---------- The leaves of a clean document are coherent and readable ----------

  lemma CoherentUnder(s: Step, es: seq<Entry>)
    requires Coherent(es)
    ensures Coherent(Under(s, es))
  {
    var r := Under(s, es);
    forall i, j | 0 <= i < j < |r| ensures Compatible(r[i].path, r[j].path) {
      assert r[i].path[1..] == es[i].path && r[j].path[1..] == es[j].path;
    }
  }

  lemma CoherentConcat(xs: seq<Entry>, ys: seq<Entry>)
    requires Coherent(xs) && Coherent(ys)
    requires forall x, y :: x in xs && y in ys ==> Compatible(x.path, y.path)
    ensures Coherent(xs + ys)
  {
  }

  predicate LeafOfPart(f: Part, e: Entry) {
    e.path != [] && e.path[0] == Field(f.name) && Entry(e.path[1..], e.value) in Leaves(f.doc)
  }

  lemma {:induction false} NamedHeads(fields: seq<Part>, e: Entry)
    requires e in NamedLeaves(fields)
    ensures e.path != [] && e.path[0].Field?
    ensures exists k :: 0 <= k < |fields| && LeafOfPart(fields[k], e)
    decreases |fields|
  {
    var first := Under(Field(fields[0].name), Leaves(fields[0].doc));
    if e in first {
      var i :| 0 <= i < |first| && first[i] == e;
      assert e.path[1..] == Leaves(fields[0].doc)[i].path;
      assert Leaves(fields[0].doc)[i] == Entry(e.path[1..], e.value);
      assert LeafOfPart(fields[0], e);
    } else {
      NamedHeads(fields[1..], e);
      var k :| 0 <= k < |fields[1..]| && LeafOfPart(fields[1..][k], e);
      assert LeafOfPart(fields[k + 1], e);
    }
  }

  lemma {:induction false} ListedHeads(elems: seq<Doc>, from: nat, e: Entry)
    requires e in ListedLeaves(elems, from)
    ensures e.path != [] && e.path[0].Index? && from <= e.path[0].i < from + |elems|
    ensures Entry(e.path[1..], e.value) in Leaves(elems[e.path[0].i - from])
    decreases |elems|
  {
    var first := Under(Index(from), Leaves(elems[0]));
    if e in first {
      var i :| 0 <= i < |first| && first[i] == e;
      assert e.path[1..] == Leaves(elems[0])[i].path;
      assert Leaves(elems[0])[i] == Entry(e.path[1..], e.value);
    } else {
      ListedHeads(elems[1..], from + 1, e);
    }
  }

  lemma HeadOfUnder(s: Step, es: seq<Entry>, e: Entry)
    requires e in Under(s, es)
    ensures e.path != [] && e.path[0] == s
  {
  }

  /** Distinct names make the leaves of a document coherent. */
  lemma {:induction false} LeavesAreCoherent(doc: Doc)
    requires DistinctNames(doc)
    ensures Coherent(Leaves(doc))
    decreases doc, 0
  {
    match doc
    case Atom(_) =>
    case Named(fields) => NamedAreCoherent(fields);
    case Listed(elems) => ListedAreCoherent(elems, 0);
  }

  lemma {:induction false} NamedAreCoherent(fields: seq<Part>)
    requires DistinctParts(fields) && forall f :: f in fields ==> DistinctNames(f.doc)
    ensures Coherent(NamedLeaves(fields))
    decreases fields, 1
  {
    if fields == [] { return; }
    var s, es, rest := Field(fields[0].name), Leaves(fields[0].doc), fields[1..];
    LeavesAreCoherent(fields[0].doc);
    NamedAreCoherent(rest);
    CoherentUnder(s, es);
    forall x, y | x in Under(s, es) && y in NamedLeaves(rest) ensures Compatible(x.path, y.path) {
      HeadOfUnder(s, es, x);
      NamedHeads(rest, y);
    }
    CoherentConcat(Under(s, es), NamedLeaves(rest));
  }

  lemma {:induction false} ListedAreCoherent(elems: seq<Doc>, from: nat)
    requires forall e :: e in elems ==> DistinctNames(e)
    ensures Coherent(ListedLeaves(elems, from))
    decreases elems, 1
  {
    if elems == [] { return; }
    var s, es, rest := Index(from), Leaves(elems[0]), elems[1..];
    LeavesAreCoherent(elems[0]);
    ListedAreCoherent(rest, from + 1);
    CoherentUnder(s, es);
    forall x, y | x in Under(s, es) && y in ListedLeaves(rest, from + 1) ensures Compatible(x.path, y.path) {
      HeadOfUnder(s, es, x);
      ListedHeads(rest, from + 1, y);
    }
    CoherentConcat(Under(s, es), ListedLeaves(rest, from + 1));
  }

  /** Distinct clean names, no list directly in a list, and no list longer than an int can count. */
  predicate Clean(doc: Doc, listed: bool)
    decreases doc
  {
    match doc
    case Atom(_) => true
    case Named(fields) => DistinctParts(fields) && forall f :: f in fields ==> CleanName(f.name) && Clean(f.doc, false)
    case Listed(elems) => !listed && |elems| <= MAX_INT && forall e :: e in elems ==> Clean(e, true)
  }

  lemma {:induction false} CleanIsDistinct(doc: Doc, listed: bool)
    requires Clean(doc, listed)
    ensures DistinctNames(doc)
    decreases doc
  {
    match doc
    case Atom(_) =>
    case Named(fields) => forall f | f in fields ensures DistinctNames(f.doc) { CleanIsDistinct(f.doc, false); }
    case Listed(elems) => forall e | e in elems ensures DistinctNames(e) { CleanIsDistinct(e, true); }
  }

  /** No empty name at the top in front of a named child: its key would be printed as the child's. */
  predicate NoBlankTop(fields: seq<Part>) { forall f :: f in fields ==> f.name != "" || !f.doc.Named? }

  predicate PlainPath(p: Path, listed: bool) {
    (forall s :: s in p ==> CleanStep(s)) && !Nested(p) && (listed && p != [] ==> p[0].Field?)
  }

  lemma PlainPathLonger(s: Step, p: Path)
    requires CleanStep(s) && PlainPath(p, s.Index?)
    ensures PlainPath([s] + p, s.Field?)
  {
  }

  lemma {:induction false} LeafPathsArePlain(doc: Doc, listed: bool, e: Entry)
    requires Clean(doc, listed) && e in Leaves(doc)
    ensures PlainPath(e.path, listed)
    decreases |e.path|
  {
    match doc
    case Atom(_) =>
    case Named(fields) =>
      NamedHeads(fields, e);
      var k :| 0 <= k < |fields| && LeafOfPart(fields[k], e);
      LeafPathsArePlain(fields[k].doc, false, Entry(e.path[1..], e.value));
      PlainPathLonger(e.path[0], e.path[1..]);
      assert e.path == [e.path[0]] + e.path[1..];
    case Listed(elems) =>
      ListedHeads(elems, 0, e);
      LeafPathsArePlain(elems[e.path[0].i], true, Entry(e.path[1..], e.value));
      PlainPathLonger(e.path[0], e.path[1..]);
      assert e.path == [e.path[0]] + e.path[1..];
  }

  // ---------- From the fields back to the tree ----------

  /** The Go map Parse fills from the fields; a later field of the same name wins. */
  function FieldMap(fields: seq<Stored>): FlatMap {
    if fields == [] then map[]
    else
      var last := fields[|fields| - 1];
      FieldMap(fields[..|fields| - 1])[last.name := last.value]
  }

  lemma {:induction false} FieldMapHolds(fields: seq<Stored>)
    requires forall i, j :: 0 <= i < j < |fields| ==> fields[i].name != fields[j].name
    ensures forall k :: k in FieldMap(fields) ==> exists i :: 0 <= i < |fields| && fields[i].name == k
    ensures forall i :: 0 <= i < |fields| ==> fields[i].name in FieldMap(fields)
    ensures forall i :: 0 <= i < |fields| ==> FieldMap(fields)[fields[i].name] == fields[i].value
  {
    if fields != [] {
      var front, last := fields[..|fields| - 1], fields[|fields| - 1];
      FieldMapHolds(front);
      forall k | k in FieldMap(fields) ensures exists i :: 0 <= i < |fields| && fields[i].name == k {
        if k == last.name {
          assert fields[|fields| - 1].name == k;
        } else {
          assert k in FieldMap(front);
          var i :| 0 <= i < |front| && front[i].name == k;
          assert fields[i].name == k;
        }
      }
      forall i | 0 <= i < |fields|
        ensures fields[i].name in FieldMap(fields) && FieldMap(fields)[fields[i].name] == fields[i].value
      {
        if i < |front| { assert fields[i] == front[i] && fields[i].name != last.name; }
      }
    }
  }

  /** Of several fields of one name the last is in the map. */
  lemma {:induction false} LastOfNameWins(fields: seq<Stored>, i: nat)
    requires i < |fields| && forall j :: i < j < |fields| ==> fields[j].name != fields[i].name
    ensures fields[i].name in FieldMap(fields) && FieldMap(fields)[fields[i].name] == fields[i].value
    decreases |fields|
  {
    if i < |fields| - 1 { LastOfNameWins(fields[..|fields| - 1], i); }
  }

  /** Fields whose names read as the paths of entries, in the same order. */
  predicate Matches(fields: seq<Stored>, es: seq<Entry>) {
    && |fields| == |es|
    && forall i :: 0 <= i < |es| ==>
         WellFormed(fields[i].name) && Entry(PathOf(fields[i].name), fields[i].value) == es[i]
  }

  lemma MatchingAreCoherent(fields: seq<Stored>, es: seq<Entry>)
    requires Matches(fields, es) && Coherent(es)
    ensures forall i, j :: 0 <= i < j < |fields| ==> fields[i].name != fields[j].name
    ensures CoherentFlat(FieldMap(fields))
  {
    var flat := FieldMap(fields);
    forall i, j | 0 <= i < j < |es| ensures fields[i].name != fields[j].name {
      CompatibleDiffer(es[i].path, es[j].path);
    }
    FieldMapHolds(fields);
    forall k | k in flat ensures WellFormed(k) {
      var i :| 0 <= i < |fields| && fields[i].name == k;
    }
    forall j, k | j in flat && k in flat && j != k ensures Compatible(PathOf(j), PathOf(k)) {
      var a :| 0 <= a < |fields| && fields[a].name == j;
      var b :| 0 <= b < |fields| && fields[b].name == k;
      CoherentDistinct(es, a, b);
    }
  }

  predicate UnderKey(flat: FlatMap, k: string, e: Entry) {
    k in flat && WellFormed(k) && e == Entry(PathOf(k), flat[k])
  }

  lemma EntryHasKey(fields: seq<Stored>, es: seq<Entry>, e: Entry)
    requires Matches(fields, es) && Coherent(es) && e in es
    ensures exists k :: UnderKey(FieldMap(fields), k, e)
  {
    MatchingAreCoherent(fields, es);
    FieldMapHolds(fields);
    var i :| 0 <= i < |es| && es[i] == e;
    assert UnderKey(FieldMap(fields), fields[i].name, e);
  }

  lemma KeyHasEntry(fields: seq<Stored>, es: seq<Entry>, k: string, e: Entry)
    requires Matches(fields, es) && Coherent(es) && UnderKey(FieldMap(fields), k, e)
    ensures e in es
  {
    MatchingAreCoherent(fields, es);
    FieldMapHolds(fields);
    var i :| 0 <= i < |fields| && fields[i].name == k;
    assert es[i] == e;
  }

  /** Nesting the flat map of such fields, in any order, builds the entries. */
  lemma MatchingNest(fields: seq<Stored>, es: seq<Entry>, order: seq<string>)
    requires Matches(fields, es) && Coherent(es) && IsOrder(order, FieldMap(fields))
    ensures CoherentFlat(FieldMap(fields)) && Nest(order, FieldMap(fields)) == Build(ROOT, es)
  {
    var flat := FieldMap(fields);
    MatchingAreCoherent(fields, es);
    OrderIsCoherent(order, flat);
    forall e ensures e in EntriesOf(order, flat) <==> e in es {
      EntryOfKey(order, flat, e);
      if e in es {
        EntryHasKey(fields, es, e);
        var k :| UnderKey(flat, k, e);
        assert k in flat && e == Entry(PathOf(k), flat[k]);
      }
      if e in EntriesOf(order, flat) {
        var k :| k in flat && e == Entry(PathOf(k), flat[k]);
        KeyHasEntry(fields, es, k, e);
      }
    }
    BuildAnyOrder(ROOT, EntriesOf(order, flat), es);
  }

  lemma {:induction false} KeyHasNoNul(p: Path)
    requires forall s :: s in p ==> CleanStep(s)
    ensures NUL !in KeyOf(p)
  {
    if p != [] {
      var front, last := p[..|p| - 1], p[|p| - 1];
      assert p == front + [last];
      KeyHasNoNul(front);
      if last.Index? {
        ItoaDigits(last.i);
        assert NUL !in Itoa(last.i);
      } else {
        assert last in p && CleanName(last.name);
      }
    }
  }

  lemma LeafIsNotBlank(fields: seq<Part>, e: Entry)
    requires NoBlankTop(fields) && e in Leaves(Named(fields))
    ensures !BlankFirst(e.path)
  {
    NamedHeads(fields, e);
    var k :| 0 <= k < |fields| && LeafOfPart(fields[k], e);
    assert fields[k] in fields;
    if fields[k].doc.Listed? { ListedHeads(fields[k].doc.elems, 0, Entry(e.path[1..], e.value)); }
  }

  /** A leaf of a clean document comes back under the key it was printed with. */
  lemma LeafKey(fields: seq<Part>, e: Entry)
    requires Clean(Named(fields), false) && NoBlankTop(fields) && e in Leaves(Named(fields))
    ensures CString(KeyOf([] + e.path)) == KeyOf(e.path)
    ensures WellFormed(KeyOf(e.path)) && PathOf(KeyOf(e.path)) == e.path
  {
    LeafPathsArePlain(Named(fields), false, e);
    LeafIsNotBlank(fields, e);
    NamedHeads(fields, e);
    assert [] + e.path == e.path;
    KeyHasNoNul(e.path);
    KeyRoundTripExactly(e.path);
  }

  lemma PrintedLeavesMatch(fields: seq<Part>)
    requires Clean(Named(fields), false) && NoBlankTop(fields)
    ensures Matches(Print([], Leaves(Named(fields))), Leaves(Named(fields)))
  {
    var es := Leaves(Named(fields));
    forall i | 0 <= i < |es|
      ensures var f := Print([], es)[i]; WellFormed(f.name) && Entry(PathOf(f.name), f.value) == es[i]
    {
      LeafKey(fields, es[i]);
    }
  }

  lemma BuildRoot(fields: seq<Part>)
    requires DistinctNames(Named(fields))
    ensures Build(ROOT, Leaves(Named(fields))) == Some(Full(Map(ImageEntries(fields))))
  {
    BuildNamed(ROOT, fields);
    assert NO_ENTRIES + ImageEntries(fields) == ImageEntries(fields);
  }

  lemma NestPrinted(fields: seq<Part>, order: seq<string>)
    requires Clean(Named(fields), false) && NoBlankTop(fields)
    requires IsOrder(order, FieldMap(Print([], Leaves(Named(fields)))))
    ensures CoherentFlat(FieldMap(Print([], Leaves(Named(fields)))))
    ensures Nest(order, FieldMap(Print([], Leaves(Named(fields))))) == Some(Full(Map(ImageEntries(fields))))
  {
    var doc := Named(fields);
    PrintedLeavesMatch(fields);
    CleanIsDistinct(doc, false);
    LeavesAreCoherent(doc);
    BuildRoot(fields);
    MatchingNest(Print([], Leaves(doc)), Leaves(doc), order);
  }

  /**
   * Flatten, then nest: whatever order the keys are visited in, the fields dump_value emits
   * for a clean struct nest to the image of the struct.
   */
  lemma RoundTrip(v: Value, order: seq<string>)
    requires Shape(v, 0).Named? && Clean(Shape(v, 0), false) && NoBlankTop(Shape(v, 0).fields)
    requires IsOrder(order, FieldMap(Dump("", v, 0)))
    ensures CoherentFlat(FieldMap(Dump("", v, 0)))
    ensures Nest(order, FieldMap(Dump("", v, 0))) == Some(Full(Map(ImageEntries(Shape(v, 0).fields))))
  {
    DumpPrintsLeaves([], v, 0);
    NestPrinted(Shape(v, 0).fields, order);
  }
}
