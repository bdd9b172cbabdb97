/** NestedFromFlat and GetDeepStr on Go's mutable maps and slices. */
module Nested {
  import opened Wrappers
  import opened GoStrings
  import opened Trees
  import opened Keys
  import opened FlatMaps

  // ---------- The heap ----------

  /** An interface{} as found in these maps and slices. */
  datatype GoValue = Nil | Plain(value: Scalar) | MapRef(m: GoMap) | SliceRef(s: GoSlice)

  class GoMap {
    var entries: map<string, GoValue>

    constructor ()
      ensures entries == map[]
    {
      entries := map[];
    }
  }

  /** A slice together with the header stored in the map: growing it stores the grown header back. */
  class GoSlice {
    var items: seq<GoValue>

    constructor (n: nat)
      ensures items == seq(n, _ => Nil)
    {
      items := seq(n, _ => Nil);
    }
  }

  // ---------- What the heap shows ----------

  /** The one place that refers to a map or slice. */
  datatype Home = Root | InMap(m: GoMap, key: string) | InSlice(s: GoSlice, idx: nat)

  /** The tree each map and slice stands for, and where it is referred to from. */
  datatype Layout = Layout(maps: map<GoMap, (Tree, Home)>, slices: map<GoSlice, (Tree, Home)>)

  function Owner(h: Home): object? {
    match h
    case Root => null
    case InMap(m, _) => m
    case InSlice(s, _) => s
  }

  /** A value stored at a place stands for a slot, and what it refers to is at home there. */
  ghost predicate Holds(v: GoValue, home: Home, slot: Slot, lay: Layout) {
    match v
    case Nil => slot == Empty
    case Plain(x) => slot == Full(Leaf(x))
    case MapRef(m) => m in lay.maps && lay.maps[m].1 == home && slot == Full(lay.maps[m].0)
    case SliceRef(s) => s in lay.slices && lay.slices[s].1 == home && slot == Full(lay.slices[s].0)
  }

  /** The entries of a map, with everything below them, are those of a tree. */
  ghost predicate MapShows(o: GoMap, t: Tree, lay: Layout)
    reads o
  {
    t.Map? && t.entries.Keys == o.entries.Keys
    && forall k :: k in o.entries ==> Holds(o.entries[k], InMap(o, k), Full(t.entries[k]), lay)
  }

  ghost predicate SliceShows(o: GoSlice, t: Tree, lay: Layout)
    reads o
  {
    ItemsShow(o, o.items, t, lay)
  }

  ghost predicate ItemsShow(o: GoSlice, items: seq<GoValue>, t: Tree, lay: Layout) {
    t.Slice? && |t.items| == |items|
    && forall i :: 0 <= i < |items| ==> Holds(items[i], InSlice(o, i), t.items[i], lay)
  }

  lemma ItemsGrow(o: GoSlice, items: seq<GoValue>, t: Tree, more: nat, lay: Layout)
    requires ItemsShow(o, items, t, lay)
    ensures ItemsShow(o, items + seq(more, _ => Nil), Slice(t.items + seq(more, _ => Empty)), lay)
  {
    var grown := items + seq(more, _ => Nil);
    forall i | 0 <= i < |grown|
      ensures Holds(grown[i], InSlice(o, i), (t.items + seq(more, _ => Empty))[i], lay)
    {
      if i < |items| { assert Holds(items[i], InSlice(o, i), t.items[i], lay); }
    }
  }

  /** Every map and slice shows its tree, but for one that may be in the middle of a change. */
  ghost predicate Shown(lay: Layout, cur: object?)
    reads lay.maps.Keys, lay.slices.Keys
  {
    && (forall o :: o in lay.maps ==> Owner(lay.maps[o].1) != o)
    && (forall o :: o in lay.maps && o != cur ==> MapShows(o, lay.maps[o].0, lay))
    && (forall o :: o in lay.slices && o != cur ==> SliceShows(o, lay.slices[o].0, lay))
  }

  /** Nothing moved, and no tree changed but that of an object at home in cur. */
  ghost predicate Steady(lay: Layout, lay': Layout, cur: object?) {
    && (forall m :: m in lay.maps ==> m in lay'.maps && lay'.maps[m].1 == lay.maps[m].1)
    && (forall m :: m in lay.maps && Owner(lay.maps[m].1) != cur ==> lay'.maps[m].0 == lay.maps[m].0)
    && (forall s :: s in lay.slices ==> s in lay'.slices && lay'.slices[s].1 == lay.slices[s].1)
    && (forall s :: s in lay.slices && Owner(lay.slices[s].1) != cur ==> lay'.slices[s].0 == lay.slices[s].0)
  }

  /** What is not at home in cur shows under the new layout what it showed under the old. */
  lemma MapSteady(o: GoMap, t: Tree, lay: Layout, lay': Layout, cur: object?)
    requires MapShows(o, t, lay) && Steady(lay, lay', cur) && o != cur
    ensures MapShows(o, t, lay')
  {
    forall k | k in o.entries ensures Holds(o.entries[k], InMap(o, k), Full(t.entries[k]), lay') {
      assert Holds(o.entries[k], InMap(o, k), Full(t.entries[k]), lay);
    }
  }

  lemma SliceSteady(o: GoSlice, t: Tree, lay: Layout, lay': Layout, cur: object?)
    requires SliceShows(o, t, lay) && Steady(lay, lay', cur) && o != cur
    ensures SliceShows(o, t, lay')
  {
    forall i | 0 <= i < |o.items| ensures Holds(o.items[i], InSlice(o, i), t.items[i], lay') {
      assert Holds(o.items[i], InSlice(o, i), t.items[i], lay);
    }
  }

  lemma OthersSteady(lay: Layout, lay': Layout, cur: object?)
    requires Shown(lay, cur) && Steady(lay, lay', cur)
    ensures forall o :: o in lay.maps && o != cur ==> MapShows(o, lay.maps[o].0, lay')
    ensures forall o :: o in lay.slices && o != cur ==> SliceShows(o, lay.slices[o].0, lay')
  {
    forall o | o in lay.maps && o != cur ensures MapShows(o, lay.maps[o].0, lay') {
      MapSteady(o, lay.maps[o].0, lay, lay', cur);
    }
    forall o | o in lay.slices && o != cur ensures SliceShows(o, lay.slices[o].0, lay') {
      SliceSteady(o, lay.slices[o].0, lay, lay', cur);
    }
  }

  /** All settled but cur, which so far shows now; its tree already is what it will show when the key is written. */
  ghost predicate AtMap(lay: Layout, cur: GoMap, now: Tree)
    reads lay.maps.Keys, lay.slices.Keys
  {
    Shown(lay, cur) && cur in lay.maps && MapShows(cur, now, lay)
  }

  ghost predicate AtSlice(lay: Layout, cur: GoSlice, now: Tree)
    reads lay.maps.Keys, lay.slices.Keys
  {
    Shown(lay, cur) && cur in lay.slices && SliceShows(cur, now, lay)
  }

  ghost function WithMap(lay: Layout, m: GoMap, t: Tree, home: Home): Layout { lay.(maps := lay.maps[m := (t, home)]) }

  ghost function WithSlice(lay: Layout, s: GoSlice, t: Tree, home: Home): Layout {
    lay.(slices := lay.slices[s := (t, home)])
  }

  function Renamed(t: Tree, p: string, child: Tree): Tree
    requires t.Map?
  {
    Map(t.entries[p := child])
  }

  function Reitemed(t: Tree, i: nat, child: Tree): Tree
    requires t.Slice? && i < |t.items|
  {
    Slice(t.items[i := Full(child)])
  }

  /** With the child's tree settled, the map that refers to it shows its own. */
  lemma MapSettlesMap(lay: Layout, cur: GoMap, now: Tree, p: string, m: GoMap, goal: Tree)
    requires MapShows(cur, now, lay) && p in cur.entries && cur.entries[p] == MapRef(m)
    ensures MapShows(cur, Renamed(now, p, goal), WithMap(lay, m, goal, InMap(cur, p)))
  {
    var t, lay' := Renamed(now, p, goal), WithMap(lay, m, goal, InMap(cur, p));
    forall k | k in cur.entries ensures Holds(cur.entries[k], InMap(cur, k), Full(t.entries[k]), lay') {
      assert Holds(cur.entries[k], InMap(cur, k), Full(now.entries[k]), lay);
    }
  }

  lemma MapSettlesSlice(lay: Layout, cur: GoMap, now: Tree, p: string, s: GoSlice, goal: Tree)
    requires MapShows(cur, now, lay) && p in cur.entries && cur.entries[p] == SliceRef(s)
    ensures MapShows(cur, Renamed(now, p, goal), WithSlice(lay, s, goal, InMap(cur, p)))
  {
    var t, lay' := Renamed(now, p, goal), WithSlice(lay, s, goal, InMap(cur, p));
    forall k | k in cur.entries ensures Holds(cur.entries[k], InMap(cur, k), Full(t.entries[k]), lay') {
      assert Holds(cur.entries[k], InMap(cur, k), Full(now.entries[k]), lay);
    }
  }

  /** Moving on to the map stored under a name: cur settles, and the child is now the one being written to. */
  lemma MapToMap(lay: Layout, cur: GoMap, now: Tree, p: string, m: GoMap, goal: Tree)
    requires AtMap(lay, cur, now) && p in cur.entries && cur.entries[p] == MapRef(m)
    requires lay.maps[cur].0 == Renamed(now, p, goal)
    ensures m in lay.maps && lay.maps[m].1 == InMap(cur, p)
    ensures AtMap(WithMap(lay, m, goal, InMap(cur, p)), m, lay.maps[m].0)
  {
    assert Holds(cur.entries[p], InMap(cur, p), Full(now.entries[p]), lay);
    OthersSteady(lay, WithMap(lay, m, goal, InMap(cur, p)), cur);
    MapSettlesMap(lay, cur, now, p, m, goal);
  }

  lemma MapToSlice(lay: Layout, cur: GoMap, now: Tree, p: string, s: GoSlice, goal: Tree)
    requires AtMap(lay, cur, now) && p in cur.entries && cur.entries[p] == SliceRef(s)
    requires lay.maps[cur].0 == Renamed(now, p, goal)
    ensures s in lay.slices && lay.slices[s].1 == InMap(cur, p)
    ensures AtSlice(WithSlice(lay, s, goal, InMap(cur, p)), s, lay.slices[s].0)
  {
    assert Holds(cur.entries[p], InMap(cur, p), Full(now.entries[p]), lay);
    OthersSteady(lay, WithSlice(lay, s, goal, InMap(cur, p)), cur);
    MapSettlesSlice(lay, cur, now, p, s, goal);
  }

  lemma SliceToMap(lay: Layout, cur: GoSlice, now: Tree, i: nat, m: GoMap, goal: Tree)
    requires AtSlice(lay, cur, now) && i < |cur.items| && cur.items[i] == MapRef(m)
    requires lay.slices[cur].0 == Reitemed(now, i, goal)
    ensures m in lay.maps && lay.maps[m].1 == InSlice(cur, i)
    ensures AtMap(WithMap(lay, m, goal, InSlice(cur, i)), m, lay.maps[m].0)
  {
    assert Holds(cur.items[i], InSlice(cur, i), now.items[i], lay);
    var lay' := WithMap(lay, m, goal, InSlice(cur, i));
    OthersSteady(lay, lay', cur);
    forall j | 0 <= j < |cur.items| ensures Holds(cur.items[j], InSlice(cur, j), lay.slices[cur].0.items[j], lay') {
      assert Holds(cur.items[j], InSlice(cur, j), now.items[j], lay);
    }
  }

  /** A new object nobody refers to yet disturbs nothing. */
  ghost predicate Extends(lay: Layout, lay': Layout) {
    && (forall m :: m in lay.maps ==> m in lay'.maps && lay'.maps[m] == lay.maps[m])
    && (forall s :: s in lay.slices ==> s in lay'.slices && lay'.slices[s] == lay.slices[s])
  }

  lemma MapExtends(o: GoMap, t: Tree, lay: Layout, lay': Layout)
    requires MapShows(o, t, lay) && Extends(lay, lay')
    ensures MapShows(o, t, lay')
  {
    forall k | k in o.entries ensures Holds(o.entries[k], InMap(o, k), Full(t.entries[k]), lay') {
      assert Holds(o.entries[k], InMap(o, k), Full(t.entries[k]), lay);
    }
  }

  lemma SliceExtends(o: GoSlice, t: Tree, lay: Layout, lay': Layout)
    requires SliceShows(o, t, lay) && Extends(lay, lay')
    ensures SliceShows(o, t, lay')
  {
    forall i | 0 <= i < |o.items| ensures Holds(o.items[i], InSlice(o, i), t.items[i], lay') {
      assert Holds(o.items[i], InSlice(o, i), t.items[i], lay);
    }
  }

  lemma ShownExtends(lay: Layout, lay': Layout, cur: object)
    requires Shown(lay, cur) && Extends(lay, lay')
    ensures forall o :: o in lay.maps && o != cur ==> MapShows(o, lay.maps[o].0, lay')
    ensures forall o :: o in lay.slices && o != cur ==> SliceShows(o, lay.slices[o].0, lay')
  {
    forall o | o in lay.maps && o != cur ensures MapShows(o, lay.maps[o].0, lay') {
      MapExtends(o, lay.maps[o].0, lay, lay');
    }
    forall o | o in lay.slices && o != cur ensures SliceShows(o, lay.slices[o].0, lay') {
      SliceExtends(o, lay.slices[o].0, lay, lay');
    }
  }

  // ---------- The writes ----------

  /** m[name] = v */
  method StoreName(m: GoMap, name: string, v: Scalar, ghost now: Tree, ghost lay: Layout)
    requires AtMap(lay, m, now) && lay.maps[m].0 == Renamed(now, name, Leaf(v))
    modifies m
    ensures Shown(lay, null)
  {
    m.entries := m.entries[name := Plain(v)];
  }

  /** m[name] = map[string]interface{}{} */
  method MakeMap(m: GoMap, name: string, ghost now: Tree, ghost lay: Layout)
    returns (made: GoMap, ghost lay': Layout)
    requires AtMap(lay, m, now)
    modifies m
    ensures fresh(made) && m.entries == old(m.entries)[name := MapRef(made)]
    ensures lay' == WithMap(lay, made, Map(NO_ENTRIES), InMap(m, name))
    ensures AtMap(lay', m, Renamed(now, name, Map(NO_ENTRIES)))
  {
    made := new GoMap();
    lay' := WithMap(lay, made, Map(NO_ENTRIES), InMap(m, name));
    ShownExtends(lay, lay', m);
    MapExtends(m, now, lay, lay');
    m.entries := m.entries[name := MapRef(made)];
  }

  /** m[name] = make([]interface{}, n), displacing whatever was there. */
  method MakeSlice(m: GoMap, name: string, n: nat, ghost now: Tree, ghost lay: Layout)
    returns (made: GoSlice, ghost lay': Layout)
    requires AtMap(lay, m, now)
    modifies m
    ensures fresh(made) && m.entries == old(m.entries)[name := SliceRef(made)] && made.items == seq(n, _ => Nil)
    ensures lay' == WithSlice(lay, made, Slice(seq(n, _ => Empty)), InMap(m, name))
    ensures AtMap(lay', m, Renamed(now, name, Slice(seq(n, _ => Empty))))
  {
    made := new GoSlice(n);
    lay' := WithSlice(lay, made, Slice(seq(n, _ => Empty)), InMap(m, name));
    ShownExtends(lay, lay', m);
    MapExtends(m, now, lay, lay');
    m.entries := m.entries[name := SliceRef(made)];
  }

  /** m[name] = append(m[name], make([]interface{}, more)...) */
  method GrowSlice(m: GoMap, name: string, s: GoSlice, more: nat, ghost now: Tree, ghost lay: Layout)
    returns (ghost lay': Layout)
    requires AtMap(lay, m, now) && name in m.entries && m.entries[name] == SliceRef(s)
    modifies s
    ensures s.items == old(s.items) + seq(more, _ => Nil)
    ensures s in lay.slices && lay.slices[s].0.Slice? && now.entries[name] == lay.slices[s].0
    ensures var grown := Slice(lay.slices[s].0.items + seq(more, _ => Empty));
      && lay' == WithSlice(lay, s, grown, InMap(m, name))
      && AtMap(lay', m, Renamed(now, name, grown))
  {
    assert Holds(m.entries[name], InMap(m, name), Full(now.entries[name]), lay);
    ghost var t := lay.slices[s].0;
    ghost var grown := Slice(t.items + seq(more, _ => Empty));
    lay' := WithSlice(lay, s, grown, InMap(m, name));
    OthersSteady(lay, lay', m);
    forall k | k in m.entries && k != name ensures Holds(m.entries[k], InMap(m, k), Full(now.entries[k]), lay') {
      assert Holds(m.entries[k], InMap(m, k), Full(now.entries[k]), lay);
    }
    ItemsGrow(s, s.items, t, more, lay');
    s.items := s.items + seq(more, _ => Nil);
  }

  /** s[i] = v */
  method StoreItem(s: GoSlice, i: nat, v: Scalar, ghost now: Tree, ghost lay: Layout)
    requires AtSlice(lay, s, now) && i < |s.items| && lay.slices[s].0 == Reitemed(now, i, Leaf(v))
    modifies s
    ensures Shown(lay, null)
  {
    s.items := s.items[i := Plain(v)];
  }

  /** s[i] = map[string]interface{}{} */
  method MakeItem(s: GoSlice, i: nat, ghost now: Tree, ghost lay: Layout)
    returns (made: GoMap, ghost lay': Layout)
    requires AtSlice(lay, s, now) && i < |s.items|
    modifies s
    ensures fresh(made) && s.items == old(s.items)[i := MapRef(made)]
    ensures lay' == WithMap(lay, made, Map(NO_ENTRIES), InSlice(s, i))
    ensures AtSlice(lay', s, Reitemed(now, i, Map(NO_ENTRIES)))
  {
    made := new GoMap();
    lay' := WithMap(lay, made, Map(NO_ENTRIES), InSlice(s, i));
    ShownExtends(lay, lay', s);
    SliceExtends(s, now, lay, lay');
    s.items := s.items[i := MapRef(made)];
  }

  // ---------- What is left to write of a key ----------

  /** The rest of a key can be written below what cur shows, giving its tree; or it cannot, and nothing was touched. */
  ghost predicate Pending(now: Tree, goal: Tree, rest: Path, v: Scalar, possible: bool) {
    if possible then Insert(Full(now), rest, v) == Some(goal)
    else Insert(Full(now), rest, v).None? && goal == now
  }

  function SlotAt(t: Tree, p: string): Slot
    requires t.Map?
  {
    if p in t.entries then Full(t.entries[p]) else Empty
  }

  lemma InsertBelowName(now: Tree, p: string, rest: Path, v: Scalar)
    requires now.Map?
    ensures Insert(Full(now), [Field(p)] + rest, v) ==
      match Insert(SlotAt(now, p), rest, v)
      case None => None
      case Some(t) => Some(Renamed(now, p, t))
  {
    assert ([Field(p)] + rest)[1..] == rest;
  }

  lemma InsertBelowIndex(now: Tree, i: nat, rest: Path, v: Scalar)
    requires now.Slice? && i < |now.items|
    ensures Insert(Full(now), [Index(i)] + rest, v) ==
      match Insert(now.items[i], rest, v)
      case None => None
      case Some(t) => Some(Reitemed(now, i, t))
  {
    assert ([Index(i)] + rest)[1..] == rest;
  }

  /** Storing an empty map where a key goes on changes nothing, and where there was nothing the key can be written. */
  lemma PendingAfterMakeMap(now: Tree, goal: Tree, p: string, rest: Path, v: Scalar, possible: bool)
    requires now.Map? && p !in now.entries && rest != [] && rest[0].Field?
    requires Pending(now, goal, [Field(p)] + rest, v, possible)
    ensures possible && Pending(Renamed(now, p, Map(NO_ENTRIES)), goal, [Field(p)] + rest, v, possible)
  {
    var made := Renamed(now, p, Map(NO_ENTRIES));
    InsertBelowName(now, p, rest, v);
    InsertBelowName(made, p, rest, v);
    WritableAtRoot(rest, v);
    var t := Insert(Empty, rest, v).value;
    assert made.entries[p := t] == now.entries[p := t];
  }

  lemma PendingAfterMakeItem(now: Tree, goal: Tree, i: nat, rest: Path, v: Scalar, possible: bool)
    requires now.Slice? && i < |now.items| && now.items[i].Empty? && rest != [] && rest[0].Field?
    requires Pending(now, goal, [Index(i)] + rest, v, possible)
    ensures possible && Pending(Reitemed(now, i, Map(NO_ENTRIES)), goal, [Index(i)] + rest, v, possible)
  {
    var made := Reitemed(now, i, Map(NO_ENTRIES));
    InsertBelowIndex(now, i, rest, v);
    InsertBelowIndex(made, i, rest, v);
    WritableAtRoot(rest, v);
    var t := Insert(Empty, rest, v).value;
    assert made.items[i := Full(t)] == now.items[i := Full(t)];
  }

  /** Nor does making or growing the slice a key goes through; if that was needed the key can be written. */
  lemma PendingAfterGrow(now: Tree, goal: Tree, base: string, i: nat, rest: Path, v: Scalar, possible: bool)
    requires now.Map? && Pending(now, goal, [Field(base)] + ([Index(i)] + rest), v, possible)
    requires Grown(SlotAt(now, base), i)[i].Empty?
    ensures possible
    ensures Pending(
      Renamed(now, base, Slice(Grown(SlotAt(now, base), i))), goal, [Field(base)] + ([Index(i)] + rest), v, possible)
  {
    var below := [Index(i)] + rest;
    var slice := Slice(Grown(SlotAt(now, base), i));
    assert below[1..] == rest;
    InsertBelowName(now, base, below, v);
    InsertBelowName(Renamed(now, base, slice), base, below, v);
    InsertIntoNothing(rest, v);
    var t := Insert(Full(slice), below, v);
    if t.Some? { assert Renamed(now, base, slice).entries[base := t.value] == now.entries[base := t.value]; }
  }

  /** What the child's tree will be once the key is written. */
  ghost function Goal(child: Tree, rest: Path, v: Scalar, possible: bool): Tree {
    if possible && Insert(Full(child), rest, v).Some? then Insert(Full(child), rest, v).value else child
  }

  lemma PendingBelowName(now: Tree, goal: Tree, p: string, rest: Path, v: Scalar, possible: bool)
    requires now.Map? && p in now.entries && Pending(now, goal, [Field(p)] + rest, v, possible)
    ensures var g := Goal(now.entries[p], rest, v, possible);
      Pending(now.entries[p], g, rest, v, possible) && goal == Renamed(now, p, g)
  {
    InsertBelowName(now, p, rest, v);
    assert now.entries[p := now.entries[p]] == now.entries;
  }

  lemma PendingBelowIndex(now: Tree, goal: Tree, i: nat, rest: Path, v: Scalar, possible: bool)
    requires now.Slice? && i < |now.items| && now.items[i].Full? && Pending(now, goal, [Index(i)] + rest, v, possible)
    ensures var g := Goal(now.items[i].tree, rest, v, possible);
      Pending(now.items[i].tree, g, rest, v, possible) && goal == Reitemed(now, i, g)
  {
    InsertBelowIndex(now, i, rest, v);
    assert now.items[i := now.items[i]] == now.items;
  }

  /** Only new objects appear, and the root stays what it is. */
  ghost predicate Continues(lay: Layout, lay': Layout) {
    && lay.maps.Keys <= lay'.maps.Keys && lay.slices.Keys <= lay'.slices.Keys
    && forall m :: m in lay.maps && lay.maps[m].1.Root? ==> lay'.maps[m] == lay.maps[m]
  }

  // ---------- One segment of a key ----------

  /** The map a plain segment goes through is made if there is nothing. */
  method OpenName(cur: GoMap, p: string, ghost rest: Path, ghost v: Scalar, ghost now: Tree, ghost possible: bool,
      ghost lay: Layout)
    returns (ghost now': Tree, ghost lay': Layout)
    requires AtMap(lay, cur, now) && rest != [] && rest[0].Field?
    requires Pending(now, lay.maps[cur].0, [Field(p)] + rest, v, possible)
    modifies cur
    ensures Continues(lay, lay') && (forall o :: o in lay'.maps && o !in lay.maps ==> fresh(o))
      && lay'.slices == lay.slices
    ensures AtMap(lay', cur, now') && p in cur.entries
      && Pending(now', lay'.maps[cur].0, [Field(p)] + rest, v, possible)
  {
    now', lay' := now, lay;
    if p !in cur.entries {
      PendingAfterMakeMap(now, lay.maps[cur].0, p, rest, v, possible);
      var made;
      made, lay' := MakeMap(cur, p, now, lay);
      now' := Renamed(now, p, Map(NO_ENTRIES));
    }
  }

  /** A plain segment before the last: through the map stored there, made if there is nothing. */
  method PassName(cur: GoMap, p: string, ghost rest: Path, ghost v: Scalar, ghost now: Tree, ghost possible: bool,
      ghost lay: Layout)
    returns (next: GoMap?, ghost now': Tree, ghost lay': Layout)
    requires AtMap(lay, cur, now) && rest != [] && rest[0].Field?
    requires Pending(now, lay.maps[cur].0, [Field(p)] + rest, v, possible)
    modifies lay.maps.Keys
    ensures Continues(lay, lay') && (forall o :: o in lay'.maps && o !in lay.maps ==> fresh(o))
      && (forall o :: o in lay'.slices && o !in lay.slices ==> fresh(o))
    ensures next == null ==> !possible
    ensures next != null ==> AtMap(lay', next, now') && Pending(now', lay'.maps[next].0, rest, v, possible)
  {
    next := null;
    now', lay' := OpenName(cur, p, rest, v, now, possible, lay);
    assert Holds(cur.entries[p], InMap(cur, p), Full(now'.entries[p]), lay');
    match cur.entries[p]
    case MapRef(m) =>
      next := m;
      PendingBelowName(now', lay'.maps[cur].0, p, rest, v, possible);
      ghost var goal := Goal(now'.entries[p], rest, v, possible);
      MapToMap(lay', cur, now', p, m, goal);
      now', lay' := now'.entries[p], WithMap(lay', m, goal, InMap(cur, p));
    case _ =>
      InsertBelowName(now', p, rest, v);
  }

  /** A value that is not a slice does not show one. */
  lemma NotSlice(cur: GoMap, base: string, now: Tree, lay: Layout)
    requires AtMap(lay, cur, now) && (base in cur.entries ==> !cur.entries[base].SliceRef?)
    ensures base in now.entries ==> !now.entries[base].Slice?
  {
    if base in cur.entries {
      assert Holds(cur.entries[base], InMap(cur, base), Full(now.entries[base]), lay);
      match cur.entries[base]
      case MapRef(m) =>
        if m != cur { assert MapShows(m, lay.maps[m].0, lay); }
      case _ =>
    }
  }

  /** The slice at base once it is long enough for slot idx. */
  ghost function Opened(now: Tree, base: string, idx: nat): Tree
    requires now.Map?
  {
    Renamed(now, base, Slice(Grown(SlotAt(now, base), idx)))
  }

  method MakeFor(cur: GoMap, base: string, idx: nat, ghost now: Tree, ghost lay: Layout)
    returns (s: GoSlice, ghost lay': Layout)
    requires AtMap(lay, cur, now) && (base in cur.entries ==> !cur.entries[base].SliceRef?)
    modifies cur
    ensures Continues(lay, lay') && lay'.maps == lay.maps
      && (forall o :: o in lay'.slices && o !in lay.slices ==> fresh(o))
    ensures AtMap(lay', cur, Opened(now, base, idx)) && base in cur.entries && cur.entries[base] == SliceRef(s)
    ensures Grown(SlotAt(now, base), idx)[idx].Empty?
  {
    NotSlice(cur, base, now, lay);
    s, lay' := MakeSlice(cur, base, idx + 1, now, lay);
    assert Grown(SlotAt(now, base), idx) == seq(idx + 1, _ => Empty);
  }

  method GrowFor(cur: GoMap, base: string, s: GoSlice, idx: nat, ghost now: Tree, ghost lay: Layout)
    returns (ghost lay': Layout)
    requires AtMap(lay, cur, now) && base in cur.entries && cur.entries[base] == SliceRef(s) && |s.items| <= idx
    requires now.entries[base].Slice? && |now.entries[base].items| == |s.items|
    modifies s
    ensures Continues(lay, lay') && lay'.maps == lay.maps && lay'.slices.Keys == lay.slices.Keys
    ensures AtMap(lay', cur, Opened(now, base, idx))
    ensures Grown(SlotAt(now, base), idx)[idx].Empty?
  {
    lay' := GrowSlice(cur, base, s, idx + 1 - |s.items|, now, lay);
    ghost var items := now.entries[base].items;
    assert Grown(SlotAt(now, base), idx) == items + seq(idx + 1 - |items|, _ => Empty);
  }

  lemma SliceStored(cur: GoMap, base: string, s: GoSlice, now: Tree, lay: Layout)
    requires AtMap(lay, cur, now) && base in cur.entries && cur.entries[base] == SliceRef(s)
    ensures s in lay.slices && now.entries[base] == lay.slices[s].0
    ensures now.entries[base].Slice? && |now.entries[base].items| == |s.items|
  {
    assert Holds(cur.entries[base], InMap(cur, base), Full(now.entries[base]), lay);
    assert SliceShows(s, lay.slices[s].0, lay);
  }

  /** The slice stored at base, made or grown until it has slot idx. */
  method OpenSlice(cur: GoMap, base: string, idx: nat, ghost rest: Path, ghost v: Scalar,
                   ghost now: Tree, ghost possible: bool, ghost lay: Layout)
    returns (s: GoSlice, ghost now': Tree, ghost lay': Layout)
    requires AtMap(lay, cur, now)
    requires Pending(now, lay.maps[cur].0, [Field(base)] + ([Index(idx)] + rest), v, possible)
    modifies cur, lay.slices.Keys
    ensures Continues(lay, lay') && lay'.maps == lay.maps
      && (forall o :: o in lay'.slices && o !in lay.slices ==> fresh(o))
    ensures AtMap(lay', cur, now') && base in cur.entries && cur.entries[base] == SliceRef(s)
    ensures Pending(now', lay'.maps[cur].0, [Field(base)] + ([Index(idx)] + rest), v, possible)
    ensures idx < |s.items|
  {
    now', lay' := now, lay;
    if base in cur.entries && cur.entries[base].SliceRef? {
      s := cur.entries[base].s;
      SliceStored(cur, base, s, now, lay);
      if idx >= |s.items| {
        lay' := GrowFor(cur, base, s, idx, now, lay);
        PendingAfterGrow(now, lay.maps[cur].0, base, idx, rest, v, possible);
        now' := Opened(now, base, idx);
      }
    } else {
      s, lay' := MakeFor(cur, base, idx, now, lay);
      PendingAfterGrow(now, lay.maps[cur].0, base, idx, rest, v, possible);
      now' := Opened(now, base, idx);
    }
    SliceStored(cur, base, s, now', lay');
  }

  /** Moves on to the slice at base, opened for slot idx. */
  method EnterSlice(cur: GoMap, base: string, idx: nat, ghost rest: Path, ghost v: Scalar,
                    ghost now: Tree, ghost possible: bool, ghost lay: Layout)
    returns (s: GoSlice, ghost now': Tree, ghost lay': Layout)
    requires AtMap(lay, cur, now)
    requires Pending(now, lay.maps[cur].0, [Field(base)] + ([Index(idx)] + rest), v, possible)
    modifies cur, lay.slices.Keys
    ensures Continues(lay, lay') && lay'.maps == lay.maps
      && (forall o :: o in lay'.slices && o !in lay.slices ==> fresh(o))
    ensures AtSlice(lay', s, now') && idx < |s.items|
    ensures Pending(now', lay'.slices[s].0, [Index(idx)] + rest, v, possible)
  {
    s, now', lay' := OpenSlice(cur, base, idx, rest, v, now, possible, lay);
    SliceStored(cur, base, s, now', lay');
    ghost var below := [Index(idx)] + rest;
    PendingBelowName(now', lay'.maps[cur].0, base, below, v, possible);
    ghost var goal := Goal(now'.entries[base], below, v, possible);
    MapToSlice(lay', cur, now', base, s, goal);
    now', lay' := now'.entries[base], WithSlice(lay', s, goal, InMap(cur, base));
  }

  /** A bracketed segment before the last: through the map stored in the slot, made if the slot is nil. */
  method PassItem(s: GoSlice, idx: nat, ghost rest: Path, ghost v: Scalar, ghost now: Tree, ghost possible: bool,
      ghost lay: Layout)
    returns (next: GoMap?, ghost now': Tree, ghost lay': Layout)
    requires AtSlice(lay, s, now) && idx < |s.items| && rest != [] && rest[0].Field?
    requires Pending(now, lay.slices[s].0, [Index(idx)] + rest, v, possible)
    modifies s
    ensures Continues(lay, lay') && (forall o :: o in lay'.maps && o !in lay.maps ==> fresh(o))
      && lay'.slices.Keys == lay.slices.Keys
    ensures next == null ==> !possible
    ensures next != null ==> AtMap(lay', next, now') && Pending(now', lay'.maps[next].0, rest, v, possible)
  {
    now', lay', next := now, lay, null;
    assert Holds(s.items[idx], InSlice(s, idx), now.items[idx], lay);
    if s.items[idx] == Nil {
      PendingAfterMakeItem(now, lay.slices[s].0, idx, rest, v, possible);
      var made;
      made, lay' := MakeItem(s, idx, now, lay);
      now' := Reitemed(now, idx, Map(NO_ENTRIES));
    }
    assert Holds(s.items[idx], InSlice(s, idx), now'.items[idx], lay');
    match s.items[idx]
    case MapRef(m) =>
      next := m;
      PendingBelowIndex(now', lay'.slices[s].0, idx, rest, v, possible);
      ghost var child := now'.items[idx].tree;
      ghost var goal := Goal(child, rest, v, possible);
      SliceToMap(lay', s, now', idx, m, goal);
      now', lay' := child, WithMap(lay', m, goal, InSlice(s, idx));
    case _ =>
      InsertBelowIndex(now', idx, rest, v);
  }

  /** A bracketed segment: the slice at its base, then the slot. Without a rest the value is stored there. */
  method PassBracket(cur: GoMap, base: string, idx: nat, last: bool, v: Scalar, ghost rest: Path,
                     ghost now: Tree, ghost possible: bool, ghost lay: Layout)
    returns (next: GoMap?, ghost now': Tree, ghost lay': Layout)
    requires AtMap(lay, cur, now) && (last <==> rest == []) && (rest != [] ==> rest[0].Field?)
    requires Pending(now, lay.maps[cur].0, [Field(base)] + ([Index(idx)] + rest), v, possible)
    modifies lay.maps.Keys, lay.slices.Keys
    ensures Continues(lay, lay') && (forall o :: o in lay'.maps && o !in lay.maps ==> fresh(o))
      && (forall o :: o in lay'.slices && o !in lay.slices ==> fresh(o))
    ensures last ==> possible && Shown(lay', null)
    ensures !last && next == null ==> !possible
    ensures !last && next != null ==> AtMap(lay', next, now') && Pending(now', lay'.maps[next].0, rest, v, possible)
  {
    var s;
    s, now', lay' := EnterSlice(cur, base, idx, rest, v, now, possible, lay);
    if last {
      InsertBelowIndex(now', idx, rest, v);
      StoreItem(s, idx, v, now', lay');
      next := null;
    } else {
      next, now', lay' := PassItem(s, idx, rest, v, now', possible, lay');
    }
  }

  /** One segment of a key, plain or bracketed, stored or passed through. */
  method PassSegment(cur: GoMap, p: string, last: bool, v: Scalar, ghost rest: Path,
                     ghost now: Tree, ghost possible: bool, ghost lay: Layout)
    returns (next: GoMap?, ghost now': Tree, ghost lay': Layout)
    requires WellFormedSegment(p) && AtMap(lay, cur, now)
    requires (last <==> rest == []) && (rest != [] ==> rest[0].Field?)
    requires Pending(now, lay.maps[cur].0, SegmentPath(p) + rest, v, possible)
    modifies lay.maps.Keys, lay.slices.Keys
    ensures Continues(lay, lay') && (forall o :: o in lay'.maps && o !in lay.maps ==> fresh(o))
      && (forall o :: o in lay'.slices && o !in lay.slices ==> fresh(o))
    ensures last ==> possible && Shown(lay', null)
    ensures !last && next == null ==> !possible
    ensures !last && next != null ==> AtMap(lay', next, now') && Pending(now', lay'.maps[next].0, rest, v, possible)
  {
    match Brackets(p)
    case Some((base, Some(text))) =>
      assert SegmentPath(p) + rest == [Field(base)] + ([Index(IndexValue(text))] + rest);
      next, now', lay' := PassBracket(cur, base, IndexValue(text), last, v, rest, now, possible, lay);
    case None =>
      if last {
        InsertBelowName(now, p, rest, v);
        StoreName(cur, p, v, now, lay);
        next, now', lay' := null, now, lay;
      } else {
        next, now', lay' := PassName(cur, p, rest, v, now, possible, lay);
      }
  }

  // ---------- NestedFromFlat ----------

  /** Nothing refers to the root, so its tree can be settled first. */
  lemma AtRoot(lay: Layout, root: GoMap, goal: Tree)
    requires Shown(lay, null) && root in lay.maps && lay.maps[root].1.Root?
    ensures AtMap(WithMap(lay, root, goal, Root), root, lay.maps[root].0)
  {
    var lay' := WithMap(lay, root, goal, Root);
    OthersSteady(lay, lay', null);
    MapSteady(root, lay.maps[root].0, lay, lay', null);
  }

  /** The path from part i on is that of the part and then the path from the next. */
  ghost predicate Parted(parts: seq<string>, paths: seq<Path>, i: nat)
    requires i < |parts| && |paths| == |parts| + 1 && WellFormedSegment(parts[i])
  {
    && paths[i] == SegmentPath(parts[i]) + paths[i + 1]
    && if i == |parts| - 1 then paths[i + 1] == [] else paths[i + 1] != [] && paths[i + 1][0].Field?
  }

  lemma {:induction false} PathsOf(parts: seq<string>) returns (paths: seq<Path>)
    requires forall p :: p in parts ==> WellFormedSegment(p)
    ensures |paths| == |parts| + 1 && paths[0] == PartsPath(parts)
    ensures forall i :: 0 <= i < |parts| ==> Parted(parts, paths, i)
  {
    if parts == [] { return [[]]; }
    var rest := PathsOf(parts[1..]);
    paths := [PartsPath(parts)] + rest;
    forall i | 0 <= i < |parts| ensures Parted(parts, paths, i) {
      if i > 0 { assert Parted(parts[1..], rest, i - 1); }
    }
  }

  /** The inner loop: writes the parts of one key below the root. False is the nil result. */
  method NestParts(root: GoMap, parts: seq<string>, v: Scalar, ghost now: Tree, ghost possible: bool, ghost lay: Layout)
    returns (ok: bool, ghost lay': Layout)
    requires parts != [] && forall p :: p in parts ==> WellFormedSegment(p)
    requires AtMap(lay, root, now) && lay.maps[root].1.Root?
    requires Pending(now, lay.maps[root].0, PartsPath(parts), v, possible)
    modifies lay.maps.Keys, lay.slices.Keys
    ensures lay.maps.Keys <= lay'.maps.Keys && (forall o :: o in lay'.maps && o !in lay.maps ==> fresh(o))
    ensures lay.slices.Keys <= lay'.slices.Keys && (forall o :: o in lay'.slices && o !in lay.slices ==> fresh(o))
    ensures ok == possible && (ok ==> Shown(lay', null) && lay'.maps[root] == lay.maps[root])
  {
    var cur: GoMap, i := root, 0;
    ghost var paths := PathsOf(parts);
    ghost var shown, rest := now, paths[0];
    lay' := lay;
    while i < |parts|
      invariant 0 <= i <= |parts| && (i == |parts| ==> possible && Shown(lay', null))
      invariant lay.maps.Keys <= lay'.maps.Keys && fresh(lay'.maps.Keys - lay.maps.Keys)
      invariant lay.slices.Keys <= lay'.slices.Keys && fresh(lay'.slices.Keys - lay.slices.Keys)
      invariant lay'.maps[root] == lay.maps[root]
      invariant rest == paths[i]
      invariant i < |parts| ==> AtMap(lay', cur, shown) && Pending(shown, lay'.maps[cur].0, rest, v, possible)
    {
      var last := i == |parts| - 1;
      assert Parted(parts, paths, i);
      rest := paths[i + 1];
      var next;
      next, shown, lay' := PassSegment(cur, parts[i], last, v, rest, shown, possible, lay');
      if !last {
        if next == null { return false, lay'; }
        cur := next;
      }
      i := i + 1;
    }
    ok := true;
  }

  method NestKey(root: GoMap, k: string, v: Scalar, ghost lay: Layout) returns (ok: bool, ghost lay': Layout)
    requires Shown(lay, null) && root in lay.maps && lay.maps[root].1.Root? && WellFormed(k)
    modifies lay.maps.Keys, lay.slices.Keys
    ensures lay.maps.Keys <= lay'.maps.Keys && (forall o :: o in lay'.maps && o !in lay.maps ==> fresh(o))
    ensures lay.slices.Keys <= lay'.slices.Keys && (forall o :: o in lay'.slices && o !in lay.slices ==> fresh(o))
    ensures match Insert(Full(lay.maps[root].0), PathOf(k), v)
      case None => !ok
      case Some(t) => ok && Shown(lay', null) && lay'.maps[root] == (t, Root)
  {
    ghost var now, path := lay.maps[root].0, PathOf(k);
    ghost var possible := Insert(Full(now), path, v).Some?;
    ghost var goal := Goal(now, path, v, possible);
    AtRoot(lay, root, goal);
    ok, lay' := NestParts(root, SplitDots(k), v, now, possible, WithMap(lay, root, goal, Root));
  }

  /**
   * NestedFromFlat: the keys are visited in an order of the runtime's choosing, and the result,
   * nil or a map, is what nesting them in that order makes.
   */
  method NestedFromFlat(flat: FlatMap) returns (root: GoMap?, ghost lay: Layout, ghost order: seq<string>)
    requires Readable(flat)
    ensures Distinct(order) && forall k :: k in order ==> k in flat
    ensures root == null ==> Nest(order, flat).None? && !CoherentFlat(flat)
    ensures root != null ==> fresh(root) && IsOrder(order, flat)
    ensures root != null ==> Shown(lay, null) && root in lay.maps && Nest(order, flat) == Some(Full(lay.maps[root].0))
  {
    root := new GoMap();
    lay := Layout(map[root := (Map(NO_ENTRIES), Root)], map[]);
    order := [];
    var rest := flat.Keys;
    while rest != {}
      invariant root != null && fresh(root) && root in lay.maps && lay.maps[root].1.Root?
      invariant fresh(lay.maps.Keys) && fresh(lay.slices.Keys)
      invariant rest <= flat.Keys && Visited(order, flat.Keys - rest)
      invariant Shown(lay, null) && Nest(order, flat) == Some(Full(lay.maps[root].0))
      decreases rest
    {
      var k :| k in rest;
      NestOneMore(order, k, flat);
      VisitOneMore(order, flat.Keys, rest, k);
      rest := rest - {k};
      var ok;
      ok, lay := NestKey(root, k, flat[k], lay);
      order := order + [k];
      if !ok {
        if CoherentFlat(flat) { NeverNil(order, flat); }
        return null, lay, order;
      }
    }
  }

  ghost predicate Visited(order: seq<string>, keys: set<string>) {
    && (forall k :: k in order <==> k in keys)
    && Distinct(order)
  }

  lemma VisitOneMore(order: seq<string>, keys: set<string>, rest: set<string>, k: string)
    requires Visited(order, keys - rest) && k in rest && rest <= keys
    ensures Visited(order + [k], keys - (rest - {k}))
  {
  }

  // ---------- GetDeepStr ----------

  /** One path of GetDeepStr, followed from map to map. */
  method FollowPath(m: GoMap, path: string, ghost lay: Layout) returns (found: Option<string>)
    requires Shown(lay, null) && m in lay.maps
    ensures found == StringAt(Full(lay.maps[m].0), path)
  {
    var parts, cur: GoMap, i := SplitDots(path), m, 0;
    ghost var whole := Get(Full(lay.maps[m].0), FieldsOf(parts));
    assert parts[0..] == parts;
    while i < |parts|
      invariant 0 <= i <= |parts| && cur in lay.maps
      invariant i == |parts| ==> !(whole.Full? && whole.tree.Leaf? && whole.tree.value.Text?)
      invariant i < |parts| ==> Get(Full(lay.maps[cur].0), FieldsOf(parts[i..])) == whole
    {
      var seg := parts[i];
      GetOneField(lay.maps[cur].0, parts[i..]);
      assert parts[i..][1..] == parts[i + 1..];
      assert MapShows(cur, lay.maps[cur].0, lay);
      if seg !in cur.entries { return None; }
      assert Holds(cur.entries[seg], InMap(cur, seg), Full(lay.maps[cur].0.entries[seg]), lay);
      if i == |parts| - 1 {
        assert parts[i + 1..] == [];
        if cur.entries[seg].Plain? && cur.entries[seg].value.Text? { return Some(cur.entries[seg].value.s); }
        NotPlainNotLeaf(cur.entries[seg], InMap(cur, seg), Full(lay.maps[cur].0.entries[seg]), lay);
      } else {
        assert parts[i + 1..] != [];
        if !cur.entries[seg].MapRef? {
          NotMapNotMap(cur.entries[seg], InMap(cur, seg), Full(lay.maps[cur].0.entries[seg]), lay, parts[i + 1..]);
          return None;
        }
        cur := cur.entries[seg].m;
      }
      i := i + 1;
    }
    found := None;
  }

  lemma GetOneField(t: Tree, parts: seq<string>)
    requires parts != [] && t.Map?
    ensures Get(Full(t), FieldsOf(parts)) ==
      if parts[0] in t.entries then Get(Full(t.entries[parts[0]]), FieldsOf(parts[1..])) else Empty
  {
    assert FieldsOf(parts)[1..] == FieldsOf(parts[1..]);
  }

  lemma NotPlainNotLeaf(v: GoValue, home: Home, slot: Slot, lay: Layout)
    requires Shown(lay, null) && Holds(v, home, slot, lay) && !(v.Plain? && v.value.Text?)
    ensures !(slot.Full? && slot.tree.Leaf? && slot.tree.value.Text?)
  {
    match v
    case MapRef(m) => assert MapShows(m, lay.maps[m].0, lay);
    case SliceRef(s) => assert SliceShows(s, lay.slices[s].0, lay);
    case _ =>
  }

  lemma NotMapNotMap(v: GoValue, home: Home, slot: Slot, lay: Layout, rest: seq<string>)
    requires Shown(lay, null) && Holds(v, home, slot, lay) && !v.MapRef? && rest != []
    ensures Get(slot, FieldsOf(rest)) == Empty
  {
    assert FieldsOf(rest)[0] == Field(rest[0]);
    match v
    case SliceRef(s) => assert SliceShows(s, lay.slices[s].0, lay);
    case _ =>
  }

  method GetDeepStr(m: GoMap, paths: seq<string>, ghost lay: Layout) returns (r: string)
    requires Shown(lay, null) && m in lay.maps
    ensures r == FirstStringAt(Full(lay.maps[m].0), paths)
  {
    var i := 0;
    while i < |paths|
      invariant 0 <= i <= |paths|
      invariant FirstStringAt(Full(lay.maps[m].0), paths[i..]) == FirstStringAt(Full(lay.maps[m].0), paths)
    {
      var found := FollowPath(m, paths[i], lay);
      assert paths[i..][1..] == paths[i + 1..];
      if found.Some? { return found.value; }
      i := i + 1;
    }
    r := "";
  }
}
