/** The nested values that keys build: Go maps, slices whose slots may be nil, and leaves. */
module Trees {
  import opened Wrappers

  datatype Scalar = Text(s: string) | Binary(b: string)

  /** One hop of a key: into a map entry or into a slice slot. */
  datatype Step = Field(name: string) | Index(i: nat)

  type Path = seq<Step>

  datatype Tree = Leaf(value: Scalar) | Map(entries: map<string, Tree>) | Slice(items: seq<Slot>)

  /** A place a value can be written to; Empty is a missing map entry or a nil slice slot. */
  datatype Slot = Empty | Full(tree: Tree)

  datatype Entry = Entry(path: Path, value: Scalar)

  const NO_ENTRIES: map<string, Tree> := map[]

  // ---------- One hop ----------

  /** Whether a step can be taken: stepping into a map needs a map or nothing; a slice displaces anything. */
  predicate Opens(at: Slot, s: Step) {
    s.Field? ==> at.Empty? || at.tree.Map?
  }

  function Entries(at: Slot): map<string, Tree> {
    if at.Full? && at.tree.Map? then at.tree.entries else NO_ENTRIES
  }

  /** The slice at a place, grown with nil slots until it has slot i. */
  function Grown(at: Slot, i: nat): (r: seq<Slot>)
    ensures i < |r|
  {
    var items := if at.Full? && at.tree.Slice? then at.tree.items else [];
    if i < |items| then items else items + seq(i + 1 - |items|, _ => Empty)
  }

  function Child(at: Slot, s: Step): Slot {
    match s
    case Field(name) => if name in Entries(at) then Full(Entries(at)[name]) else Empty
    case Index(i) => Grown(at, i)[i]
  }

  function Put(at: Slot, s: Step, t: Tree): Tree {
    match s
    case Field(name) => Map(Entries(at)[name := t])
    case Index(i) => Slice(Grown(at, i)[i := Full(t)])
  }

  lemma PutSame(at: Slot, s: Step, t: Tree, u: Tree)
    requires Opens(at, s)
    ensures Opens(Full(Put(at, s, t)), s)
    ensures Child(Full(Put(at, s, t)), s) == Full(t)
    ensures Put(Full(Put(at, s, t)), s, u) == Put(at, s, u)
  {
    if s.Field? {
      assert Entries(at)[s.name := t][s.name := u] == Entries(at)[s.name := u];
    }
  }

  lemma PutOther(at: Slot, s: Step, t: Tree, z: Step, u: Tree)
    requires s != z && s.Field? == z.Field? && Opens(at, s)
    ensures Opens(Full(Put(at, s, t)), z)
    ensures Child(Full(Put(at, s, t)), z) == Child(at, z)
    ensures Put(Full(Put(at, s, t)), z, u) == Put(Full(Put(at, z, u)), s, t)
  {
    if s.Field? {
      assert Entries(at)[s.name := t][z.name := u] == Entries(at)[z.name := u][s.name := t];
    } else {
      assert Grown(Full(Put(at, s, t)), z.i)[z.i := Full(u)] == Grown(Full(Put(at, z, u)), s.i)[s.i := Full(t)];
    }
  }

  // ---------- Writing along a path ----------

  /** Writes v at path p below a place; None is the failed type assertion that makes the build return nil. */
  function Insert(at: Slot, p: Path, v: Scalar): (r: Option<Tree>)
    decreases |p|
  {
    if p == [] then Some(Leaf(v))
    else if !Opens(at, p[0]) then None
    else
      var child := Insert(Child(at, p[0]), p[1..], v);
      if child.None? then None else Some(Put(at, p[0], child.value))
  }

  function Then(t: Option<Tree>, p: Path, v: Scalar): Option<Tree> {
    if t.None? then None else Insert(Full(t.value), p, v)
  }

  /** What is found by following a path without creating anything. */
  function Get(at: Slot, p: Path): Slot
    decreases |p|
  {
    if p == [] then at
    else if at.Empty? then Empty
    else match p[0]
      case Field(name) =>
        if at.tree.Map? && name in at.tree.entries then Get(Full(at.tree.entries[name]), p[1..]) else Empty
      case Index(i) =>
        if at.tree.Slice? && i < |at.tree.items| then Get(at.tree.items[i], p[1..]) else Empty
  }

  /**
   * Two paths part ways at a first step of the same kind: neither is a prefix of the other,
   * and no place is used both as a map and as a slice.
   */
  predicate Compatible(p: Path, q: Path)
    decreases |p|
  {
    p != [] && q != [] &&
    if p[0] == q[0] then Compatible(p[1..], q[1..]) else p[0].Field? == q[0].Field?
  }

  lemma {:induction false} CompatibleSymmetric(p: Path, q: Path)
    ensures Compatible(p, q) == Compatible(q, p)
    decreases |p|
  {
    if p != [] && q != [] && p[0] == q[0] { CompatibleSymmetric(p[1..], q[1..]); }
  }

  lemma {:induction false} CompatibleDiffer(p: Path, q: Path)
    requires Compatible(p, q)
    ensures p != q
    decreases |p|
  {
    if p[0] == q[0] { CompatibleDiffer(p[1..], q[1..]); }
  }

  /** Two writes below the same step commute if they commute at the child. */
  lemma CommuteBelow(at: Slot, s: Step, p: Path, v: Scalar, q: Path, w: Scalar)
    requires Opens(at, s)
    requires Then(Insert(Child(at, s), p, v), q, w) == Then(Insert(Child(at, s), q, w), p, v)
    ensures Then(Insert(at, [s] + p, v), [s] + q, w) == Then(Insert(at, [s] + q, w), [s] + p, v)
  {
    TwiceBelow(at, s, p, v, q, w);
    TwiceBelow(at, s, q, w, p, v);
  }

  lemma TwiceBelow(at: Slot, s: Step, p: Path, v: Scalar, q: Path, w: Scalar)
    requires Opens(at, s)
    ensures var e := Then(Insert(Child(at, s), p, v), q, w);
      Then(Insert(at, [s] + p, v), [s] + q, w) == if e.None? then None else Some(Put(at, s, e.value))
  {
    var c := Insert(Child(at, s), p, v);
    assert ([s] + p)[1..] == p && ([s] + q)[1..] == q;
    if c.Some? {
      var e := Insert(Full(c.value), q, w);
      PutSame(at, s, c.value, if e.Some? then e.value else c.value);
    }
  }

  /** Writes through different steps of the same kind happen independently. */
  lemma TwiceApart(at: Slot, s: Step, p: Path, v: Scalar, z: Step, q: Path, w: Scalar)
    requires s != z && s.Field? == z.Field? && Opens(at, s)
    ensures var c, d := Insert(Child(at, s), p, v), Insert(Child(at, z), q, w);
      Then(Insert(at, [s] + p, v), [z] + q, w) ==
      if c.None? || d.None? then None else Some(Put(Full(Put(at, s, c.value)), z, d.value))
  {
    var c := Insert(Child(at, s), p, v);
    assert ([s] + p)[1..] == p && ([z] + q)[1..] == q;
    if c.Some? { PutOther(at, s, c.value, z, c.value); }
  }

  /** Compatible writes commute wherever they start: they fail together or build the same tree. */
  lemma {:induction false} InsertCommutes(at: Slot, p: Path, v: Scalar, q: Path, w: Scalar)
    requires Compatible(p, q)
    ensures Then(Insert(at, p, v), q, w) == Then(Insert(at, q, w), p, v)
    decreases |p|
  {
    assert p == [p[0]] + p[1..] && q == [q[0]] + q[1..];
    if !Opens(at, p[0]) {
    } else if p[0] == q[0] {
      InsertCommutes(Child(at, p[0]), p[1..], v, q[1..], w);
      CommuteBelow(at, p[0], p[1..], v, q[1..], w);
    } else {
      TwiceApart(at, p[0], p[1..], v, q[0], q[1..], w);
      TwiceApart(at, q[0], q[1..], w, p[0], p[1..], v);
      var c, d := Insert(Child(at, p[0]), p[1..], v), Insert(Child(at, q[0]), q[1..], w);
      if c.Some? && d.Some? { PutOther(at, p[0], c.value, q[0], d.value); }
    }
  }

  /** Incompatible writes do not: starting from nothing, their two orders are told apart. */
  lemma {:induction false} IncompatibleDoNotCommute(p: Path, v: Scalar, q: Path, w: Scalar)
    requires !Compatible(p, q) && !(p == q && v == w)
    ensures Then(Insert(Empty, p, v), q, w) != Then(Insert(Empty, q, w), p, v)
    decreases |p|
  {
    if p != [] && q != [] && p[0] == q[0] {
      assert p == [p[0]] + p[1..] && q == [q[0]] + q[1..];
      IncompatibleDoNotCommute(p[1..], v, q[1..], w);
      TwiceBelow(Empty, p[0], p[1..], v, q[1..], w);
      TwiceBelow(Empty, p[0], q[1..], w, p[1..], v);
      var e, f := Then(Insert(Empty, p[1..], v), q[1..], w), Then(Insert(Empty, q[1..], w), p[1..], v);
      if e.Some? && f.Some? {
        PutSame(Empty, p[0], e.value, e.value);
        PutSame(Empty, p[0], f.value, f.value);
      }
    } else {
      InsertIntoNothing(p, v);
      InsertIntoNothing(q, w);
    }
  }

  /** Nothing stands in the way of a write into nothing. */
  lemma {:induction false} InsertIntoNothing(p: Path, v: Scalar)
    ensures Insert(Empty, p, v).Some?
    decreases |p|
  {
    if p != [] { InsertIntoNothing(p[1..], v); }
  }

  /** Exactly the pairs of writes whose order does not matter, from any starting point. */
  lemma OrderMattersExactly(p: Path, v: Scalar, q: Path, w: Scalar)
    ensures (forall at: Slot :: Then(Insert(at, p, v), q, w) == Then(Insert(at, q, w), p, v))
       <==> (Compatible(p, q) || (p == q && v == w))
  {
    if Compatible(p, q) {
      forall at: Slot ensures Then(Insert(at, p, v), q, w) == Then(Insert(at, q, w), p, v) {
        InsertCommutes(at, p, v, q, w);
      }
    } else if !(p == q && v == w) {
      IncompatibleDoNotCommute(p, v, q, w);
    }
  }

  /** A write that was possible stays possible after a compatible one. */
  lemma {:induction false} InsertStaysPossible(at: Slot, p: Path, v: Scalar, q: Path, w: Scalar)
    requires Compatible(p, q) && Insert(at, p, v).Some? && Insert(at, q, w).Some?
    ensures Then(Insert(at, p, v), q, w).Some?
    decreases |p|
  {
    var c := Insert(Child(at, p[0]), p[1..], v).value;
    if p[0] == q[0] {
      InsertStaysPossible(Child(at, p[0]), p[1..], v, q[1..], w);
      PutSame(at, p[0], c, c);
    } else {
      PutOther(at, p[0], c, q[0], c);
    }
  }

  lemma {:induction false} GetInserted(at: Slot, p: Path, v: Scalar)
    requires Insert(at, p, v).Some?
    ensures Get(Full(Insert(at, p, v).value), p) == Full(Leaf(v))
    decreases |p|
  {
    if p != [] { GetInserted(Child(at, p[0]), p[1..], v); }
  }

  /** A compatible write leaves what is found elsewhere alone. */
  lemma {:induction false} GetUntouched(at: Slot, p: Path, v: Scalar, q: Path)
    requires Compatible(p, q) && Insert(at, p, v).Some? && Get(at, q).Full?
    ensures Get(Full(Insert(at, p, v).value), q) == Get(at, q)
    decreases |p|
  {
    if p[0] == q[0] { GetUntouched(Child(at, p[0]), p[1..], v, q[1..]); }
  }

  /** A write creates no leaf but its own. */
  lemma {:induction false} GetNoNewLeaf(at: Slot, p: Path, v: Scalar, q: Path, x: Scalar)
    requires Insert(at, p, v).Some? && Get(Full(Insert(at, p, v).value), q) == Full(Leaf(x))
    ensures (p == q && x == v) || Get(at, q) == Full(Leaf(x))
    decreases |p|
  {
    if p != [] && q != [] && p[0] == q[0] {
      assert p == [p[0]] + p[1..] && q == [q[0]] + q[1..];
      GetNoNewLeaf(Child(at, p[0]), p[1..], v, q[1..], x);
    }
  }
}
