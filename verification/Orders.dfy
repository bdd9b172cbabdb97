/** Flat maps of any kind: which of them nest alike in every order, and which can come out as nil. */
module Orders {
  import opened Wrappers
  import opened Sequences
  import opened Trees
  import opened Building
  import opened Keys
  import opened FlatMaps

  // ---------- Two writes ----------

  /** Writes whose order does not matter. */
  predicate Agree(p: Path, v: Scalar, q: Path, w: Scalar) { Compatible(p, q) || (p == q && v == w) }

  /** Leaves found in one tree have agreeing paths. */
  lemma {:induction false} FoundTogether(at: Slot, p: Path, v: Scalar, q: Path, w: Scalar)
    requires Get(at, p) == Full(Leaf(v)) && Get(at, q) == Full(Leaf(w))
    ensures Agree(p, v, q, w)
    decreases |p|
  {
    if p != [] && q != [] && p[0] == q[0] {
      var child := if p[0].Field? then Full(at.tree.entries[p[0].name]) else at.tree.items[p[0].i];
      FoundTogether(child, p[1..], v, q[1..], w);
      assert p == [p[0]] + p[1..] && q == [q[0]] + q[1..];
    }
  }

  /** The second path steps into a map where the first has left a leaf or a slice. */
  predicate Blocks(p: Path, q: Path)
    decreases |p|
  {
    q != [] &&
    if p == [] then q[0].Field?
    else if p[0] == q[0] then Blocks(p[1..], q[1..])
    else p[0].Index? && q[0].Field?
  }

  /** A write that was possible stays so exactly when the one before it does not block it. */
  lemma {:induction false} PossibleUnlessBlocked(at: Slot, p: Path, v: Scalar, q: Path, w: Scalar)
    requires Insert(at, p, v).Some? && Insert(at, q, w).Some?
    ensures Then(Insert(at, p, v), q, w).Some? <==> !Blocks(p, q)
    decreases |p|
  {
    if q == [] {
    } else if p == [] {
      InsertIntoNothing(q[1..], w);
    } else {
      var c := Insert(Child(at, p[0]), p[1..], v).value;
      if p[0] == q[0] {
        PossibleUnlessBlocked(Child(at, p[0]), p[1..], v, q[1..], w);
        PutSame(at, p[0], c, c);
      } else if p[0].Field? == q[0].Field? {
        PutOther(at, p[0], c, q[0], c);
      } else {
        InsertIntoNothing(q[1..], w);
      }
    }
  }

  // ---------- Many writes ----------

  /** Entries that can each be written, none blocking a later one, can all be written. */
  lemma {:induction false} UnblockedBuilds(at: Slot, es: seq<Entry>)
    requires forall e :: e in es ==> Insert(at, e.path, e.value).Some?
    requires forall i, j :: 0 <= i < j < |es| ==> !Blocks(es[i].path, es[j].path)
    ensures Build(at, es).Some?
    decreases |es|
  {
    if es != [] {
      var t := Insert(at, es[0].path, es[0].value).value;
      forall e | e in es[1..] ensures Insert(Full(t), e.path, e.value).Some? {
        var i :| 1 <= i < |es| && es[i] == e;
        PossibleUnlessBlocked(at, es[0].path, es[0].value, e.path, e.value);
      }
      UnblockedBuilds(Full(t), es[1..]);
    }
  }

  /** Every two different keys agree. */
  ghost predicate AgreeingFlat(flat: FlatMap)
    requires Readable(flat)
  {
    forall j, k :: j in flat && k in flat && j != k ==> Agree(PathOf(j), flat[j], PathOf(k), flat[k])
  }

  lemma EntriesOfBoth(front: seq<string>, back: seq<string>, flat: FlatMap)
    requires Readable(flat) && forall k :: k in front || k in back ==> k in flat
    ensures EntriesOf(front + back, flat) == EntriesOf(front, flat) + EntriesOf(back, flat)
  {
  }

  /** A key that agrees with the others may as well be written first. */
  lemma HoistKey(at: Slot, before: seq<string>, k: string, after: seq<string>, flat: FlatMap)
    requires Readable(flat) && AgreeingFlat(flat)
    requires k in flat && forall j :: j in before || j in after ==> j in flat
    ensures Build(at, EntriesOf(before + ([k] + after), flat)) == Build(at, EntriesOf([k] + (before + after), flat))
  {
    var e := Entry(PathOf(k), flat[k]);
    var front, back := EntriesOf(before, flat), EntriesOf(after, flat);
    assert EntriesOf([k], flat) == [e];
    EntriesOfBoth([k], after, flat);
    EntriesOfBoth(before, [k] + after, flat);
    EntriesOfBoth(before, after, flat);
    EntriesOfBoth([k], before + after, flat);
    forall x | x in front ensures Compatible(x.path, e.path) || x == e {
      var i :| 0 <= i < |before| && front[i] == x;
      assert before[i] in before;
    }
    Hoist(at, front, e, back);
    Regroup([e], front, back);
    Regroup(front, [e], back);
  }

  lemma FirstKey(at: Slot, k: string, rest: seq<string>, flat: FlatMap)
    requires Readable(flat) && k in flat && forall j :: j in rest ==> j in flat
    ensures Build(at, EntriesOf([k] + rest, flat)) ==
      match Insert(at, PathOf(k), flat[k])
      case None => None
      case Some(t) => Build(Full(t), EntriesOf(rest, flat))
  {
    assert EntriesOf([k] + rest, flat)[1..] == EntriesOf(rest, flat);
  }

  /** The same keys in two orders build the same thing if every two of them agree. */
  lemma {:induction false} AgreeingBuildAlike(at: Slot, js: seq<string>, ks: seq<string>, flat: FlatMap)
    requires Readable(flat) && AgreeingFlat(flat)
    requires multiset(js) == multiset(ks) && (forall k :: k in js ==> k in flat) && forall k :: k in ks ==> k in flat
    ensures Build(at, EntriesOf(js, flat)) == Build(at, EntriesOf(ks, flat))
    decreases |js|
  {
    assert |js| == |multiset(ks)|;
    if js == [] { return; }
    var before, after := TakenOut(js, ks);
    var first, rest, others := js[0], js[1..], before + after;
    assert js == [first] + rest;
    assert forall j :: j in others ==> j in ks;
    HoistKey(at, before, first, after, flat);
    FirstKey(at, first, rest, flat);
    FirstKey(at, first, others, flat);
    var t := Insert(at, PathOf(first), flat[first]);
    if t.Some? { AgreeingBuildAlike(Full(t.value), rest, others, flat); }
  }

  // ---------- An order that nests ----------

  /** Of two paths the one to write later: where they part by kind, names before indexes before leaves. */
  predicate Later(p: Path, q: Path)
    decreases |p|
  {
    p == [] || (q != [] && if p[0].Field? == q[0].Field? then Later(p[1..], q[1..]) else q[0].Field?)
  }

  lemma {:induction false} LaterIsTotal(p: Path, q: Path)
    ensures Later(p, q) || Later(q, p)
    decreases |p|
  {
    if p != [] && q != [] { LaterIsTotal(p[1..], q[1..]); }
  }

  lemma {:induction false} LaterIsTransitive(p: Path, q: Path, r: Path)
    requires Later(p, q) && Later(q, r)
    ensures Later(p, r)
    decreases |p|
  {
    if p != [] && p[0].Field? == q[0].Field? == r[0].Field? { LaterIsTransitive(p[1..], q[1..], r[1..]); }
  }

  lemma {:induction false} LaterIsNotBlocked(p: Path, q: Path)
    requires Later(p, q)
    ensures !Blocks(q, p)
    decreases |p|
  {
    if p != [] && q != [] && p[0] == q[0] { LaterIsNotBlocked(p[1..], q[1..]); }
  }

  lemma {:induction false} LatestKey(keys: set<string>) returns (k: string)
    requires keys != {} && forall j :: j in keys ==> WellFormed(j)
    ensures k in keys && forall j :: j in keys ==> Later(PathOf(k), PathOf(j))
    decreases |keys|
  {
    k :| k in keys;
    LaterIsTotal(PathOf(k), PathOf(k));
    if keys != {k} {
      var other := LatestKey(keys - {k});
      LaterIsTotal(PathOf(k), PathOf(other));
      if Later(PathOf(k), PathOf(other)) {
        forall j | j in keys - {k} ensures Later(PathOf(k), PathOf(j)) {
          LaterIsTransitive(PathOf(k), PathOf(other), PathOf(j));
        }
      } else {
        k := other;
      }
    }
  }

  /** No key blocks a later one. */
  ghost predicate Unblocked(order: seq<string>)
    requires forall k :: k in order ==> WellFormed(k)
  {
    forall i, j :: 0 <= i < j < |order| ==> !Blocks(PathOf(order[i]), PathOf(order[j]))
  }

  lemma UnblockedNests(order: seq<string>, flat: FlatMap)
    requires Readable(flat) && (forall k :: k in order ==> k in flat) && Unblocked(order)
    ensures Nest(order, flat).Some?
  {
    forall e | e in EntriesOf(order, flat) ensures Insert(ROOT, e.path, e.value).Some? {
      WritableAtRoot(e.path, e.value);
    }
    UnblockedBuilds(ROOT, EntriesOf(order, flat));
  }

  lemma LatestLast(front: seq<string>, last: string)
    requires WellFormed(last) && (forall k :: k in front ==> WellFormed(k)) && Unblocked(front)
    requires forall k :: k in front ==> Later(PathOf(last), PathOf(k))
    ensures Unblocked(front + [last])
  {
    forall k | k in front ensures !Blocks(PathOf(k), PathOf(last)) { LaterIsNotBlocked(PathOf(last), PathOf(k)); }
  }

  /** The keys in an order that blocks nothing. */
  lemma {:induction false} Arranged(keys: set<string>) returns (order: seq<string>)
    requires forall k :: k in keys ==> WellFormed(k)
    ensures Distinct(order) && (forall k :: k in order <==> k in keys) && Unblocked(order)
    decreases |keys|
  {
    order := [];
    if keys != {} {
      var last := LatestKey(keys);
      var front := Arranged(keys - {last});
      LatestLast(front, last);
      order := front + [last];
    }
  }

  /** Some order of any of the keys of a readable map nests without failure. */
  lemma SomeOrder(flat: FlatMap, keys: set<string>) returns (order: seq<string>)
    requires Readable(flat) && keys <= flat.Keys
    ensures Distinct(order) && (forall k :: k in order <==> k in keys) && Nest(order, flat).Some?
  {
    order := Arranged(keys);
    UnblockedNests(order, flat);
  }

  // ---------- The exact conditions ----------

  lemma {:induction false} DistinctCounts(order: seq<string>, k: string)
    requires Distinct(order)
    ensures multiset(order)[k] == if k in order then 1 else 0
  {
    if order != [] {
      var front, last := order[..|order| - 1], order[|order| - 1];
      assert order == front + [last];
      DistinctCounts(front, k);
    }
  }

  lemma OrdersAreAlike(js: seq<string>, ks: seq<string>, flat: FlatMap)
    requires IsOrder(js, flat) && IsOrder(ks, flat)
    ensures multiset(js) == multiset(ks)
  {
    forall k ensures multiset(js)[k] == multiset(ks)[k] {
      DistinctCounts(js, k);
      DistinctCounts(ks, k);
    }
  }

  /** What is written last is found, so in a map that nests alike in every order everything is. */
  lemma LastIsFound(flat: FlatMap, k: string) returns (order: seq<string>)
    requires Readable(flat) && k in flat
    ensures IsOrder(order, flat)
    ensures Nest(order, flat).Some? ==> Get(Nest(order, flat).value, PathOf(k)) == Full(Leaf(flat[k]))
  {
    var front := SomeOrder(flat, flat.Keys - {k});
    order := front + [k];
    NestOneMore(front, k, flat);
    if Nest(order, flat).Some? { GetInserted(Nest(front, flat).value, PathOf(k), flat[k]); }
  }

  ghost predicate NestsAlike(flat: FlatMap)
    requires Readable(flat)
  {
    forall js, ks :: IsOrder(js, flat) && IsOrder(ks, flat) ==> Nest(js, flat) == Nest(ks, flat)
  }

  /** Keys whose orders all nest alike agree: some order nests, so all do, and each key has been the last. */
  lemma NestsAlikeAgrees(flat: FlatMap, j: string, k: string)
    requires Readable(flat) && NestsAlike(flat) && j in flat && k in flat
    ensures Agree(PathOf(j), flat[j], PathOf(k), flat[k])
  {
    var some := SomeOrder(flat, flat.Keys);
    FoundInAll(flat, some, j);
    FoundInAll(flat, some, k);
    FoundTogether(Nest(some, flat).value, PathOf(j), flat[j], PathOf(k), flat[k]);
  }

  lemma FoundInAll(flat: FlatMap, order: seq<string>, k: string)
    requires Readable(flat) && NestsAlike(flat) && IsOrder(order, flat) && k in flat && Nest(order, flat).Some?
    ensures Get(Nest(order, flat).value, PathOf(k)) == Full(Leaf(flat[k]))
  {
    var ks := LastIsFound(flat, k);
    assert Nest(ks, flat) == Nest(order, flat);
  }

  lemma AgreeingNestAlike(flat: FlatMap, js: seq<string>, ks: seq<string>)
    requires Readable(flat) && AgreeingFlat(flat) && IsOrder(js, flat) && IsOrder(ks, flat)
    ensures Nest(js, flat) == Nest(ks, flat)
  {
    OrdersAreAlike(js, ks, flat);
    AgreeingBuildAlike(ROOT, js, ks, flat);
  }

  /**
   * All orders of a map nest alike exactly when every two of its keys are compatible, or read as the same path and
   * hold the same value.
   */
  lemma OrderIndependentExactly(flat: FlatMap)
    requires Readable(flat)
    ensures NestsAlike(flat) <==> AgreeingFlat(flat)
  {
    if AgreeingFlat(flat) {
      forall js, ks | IsOrder(js, flat) && IsOrder(ks, flat) ensures Nest(js, flat) == Nest(ks, flat) {
        AgreeingNestAlike(flat, js, ks);
      }
    }
    if NestsAlike(flat) {
      forall j, k | j in flat && k in flat && j != k ensures Agree(PathOf(j), flat[j], PathOf(k), flat[k]) {
        NestsAlikeAgrees(flat, j, k);
      }
    }
  }

  /** No order of a map comes out as nil exactly when none of its keys blocks another. */
  lemma NilExactly(flat: FlatMap)
    requires Readable(flat)
    ensures (forall order :: IsOrder(order, flat) ==> Nest(order, flat).Some?)
       <==> (forall j, k :: j in flat && k in flat ==> !Blocks(PathOf(j), PathOf(k)))
  {
    if forall j, k :: j in flat && k in flat ==> !Blocks(PathOf(j), PathOf(k)) {
      forall order | IsOrder(order, flat) ensures Nest(order, flat).Some? {
        UnblockedNests(order, flat);
      }
    }
    forall j, k | j in flat && k in flat && Blocks(PathOf(j), PathOf(k))
      ensures exists order :: IsOrder(order, flat) && Nest(order, flat).None?
    {
      var order := NilOrder(flat, j, k);
    }
  }

  /** A key, then a key it blocks: whatever comes after them, the result is nil. */
  lemma NilOrder(flat: FlatMap, j: string, k: string) returns (order: seq<string>)
    requires Readable(flat) && j in flat && k in flat && Blocks(PathOf(j), PathOf(k))
    ensures IsOrder(order, flat) && Nest(order, flat).None?
  {
    NotBlockedByItself(PathOf(j));
    var rest := Arranged(flat.Keys - {j, k});
    order := [j, k] + rest;
    PairFirst(flat, j, k, rest);
    BlockedPair(flat, j, k);
    NilStaysNil([j, k], rest, flat);
  }

  lemma PairFirst(flat: FlatMap, j: string, k: string, rest: seq<string>)
    requires j in flat && k in flat && j != k && Distinct(rest)
    requires forall i :: i in rest <==> i in flat && i != j && i != k
    ensures IsOrder([j, k] + rest, flat)
  {
  }

  lemma NilStaysNil(front: seq<string>, back: seq<string>, flat: FlatMap)
    requires Readable(flat) && forall k :: k in front || k in back ==> k in flat
    requires Nest(front, flat).None?
    ensures Nest(front + back, flat).None?
  {
    EntriesOfBoth(front, back, flat);
    BuildConcat(ROOT, EntriesOf(front, flat), EntriesOf(back, flat));
  }

  lemma BlockedPair(flat: FlatMap, j: string, k: string)
    requires Readable(flat) && j in flat && k in flat && Blocks(PathOf(j), PathOf(k))
    ensures Nest([j, k], flat).None?
  {
    WritableAtRoot(PathOf(j), flat[j]);
    WritableAtRoot(PathOf(k), flat[k]);
    PossibleUnlessBlocked(ROOT, PathOf(j), flat[j], PathOf(k), flat[k]);
    NestOneMore([], j, flat);
    NestOneMore([j], k, flat);
    assert [] + [j] == [j] && [j] + [k] == [j, k];
  }

  lemma {:induction false} NotBlockedByItself(p: Path)
    ensures !Blocks(p, p)
  {
    if p != [] { NotBlockedByItself(p[1..]); }
  }
}
