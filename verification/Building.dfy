/** Writing many keys one after the other, and why the order does not matter. */
module Building {
  import opened Wrappers
  import opened Trees

  function Build(at: Slot, es: seq<Entry>): Option<Slot>
    decreases |es|
  {
    if es == [] then Some(at) else
    var t := Insert(at, es[0].path, es[0].value);
    if t.None? then None else Build(Full(t.value), es[1..])
  }

  predicate Coherent(es: seq<Entry>) {
    forall i, j :: 0 <= i < j < |es| ==> Compatible(es[i].path, es[j].path)
  }

  /** Once something has been written the place is full. */
  lemma {:induction false} BuiltIsFull(at: Slot, es: seq<Entry>)
    requires Build(at, es).Some? && (es != [] || at.Full?)
    ensures Build(at, es).value.Full?
    decreases |es|
  {
    if es != [] { BuiltIsFull(Full(Insert(at, es[0].path, es[0].value).value), es[1..]); }
  }

  lemma {:induction false} BuildConcat(at: Slot, xs: seq<Entry>, ys: seq<Entry>)
    ensures Build(at, xs + ys) == if Build(at, xs).None? then None else Build(Build(at, xs).value, ys)
    decreases |xs|
  {
    if xs == [] {
      assert xs + ys == ys;
    } else {
      assert (xs + ys)[1..] == xs[1..] + ys;
      var t := Insert(at, xs[0].path, xs[0].value);
      if t.Some? { BuildConcat(Full(t.value), xs[1..], ys); }
    }
  }

  /** An entry compatible with everything before it, but for copies of itself, may as well be written first. */
  lemma {:induction false} Hoist(at: Slot, xs: seq<Entry>, e: Entry, ys: seq<Entry>)
    requires forall x :: x in xs ==> Compatible(x.path, e.path) || x == e
    ensures Build(at, xs + [e] + ys) == Build(at, [e] + xs + ys)
    decreases |xs|
  {
    if xs == [] {
      assert xs + [e] + ys == [e] + xs + ys;
    } else {
      var x, rest := xs[0], xs[1..];
      assert (xs + [e] + ys)[1..] == rest + [e] + ys;
      assert ([e] + xs + ys)[1..] == [x] + rest + ys && ([e] + rest + ys)[1..] == rest + ys;
      assert ([x] + rest + ys)[1..] == rest + ys;
      var t := Insert(at, x.path, x.value);
      if t.Some? { Hoist(Full(t.value), rest, e, ys); }
      if x != e { InsertCommutes(at, x.path, x.value, e.path, e.value); }
    }
  }

  lemma CoherentDistinct(es: seq<Entry>, i: nat, j: nat)
    requires Coherent(es) && i < |es| && j < |es| && i != j
    ensures es[i] != es[j] && Compatible(es[i].path, es[j].path)
  {
    if j < i { CompatibleSymmetric(es[i].path, es[j].path); }
    CompatibleDiffer(es[i].path, es[j].path);
  }

  ghost predicate SameEntries(xs: seq<Entry>, ys: seq<Entry>) { forall e :: e in xs <==> e in ys }

  /** Dropping one occurrence from a coherent list drops the entry. */
  lemma WithoutOne(xs: seq<Entry>, k: nat, x: Entry)
    requires Coherent(xs) && k < |xs|
    ensures x in xs[..k] + xs[k + 1..] <==> x in xs && x != xs[k]
  {
    var rest := xs[..k] + xs[k + 1..];
    if x in rest {
      var j :| 0 <= j < |rest| && rest[j] == x;
      var i := if j < k then j else j + 1;
      assert xs[i] == x;
      CoherentDistinct(xs, i, k);
    }
    if x in xs && x != xs[k] {
      var i :| 0 <= i < |xs| && xs[i] == x;
      assert if i < k then rest[i] == x else rest[i - 1] == x;
    }
  }

  /** Two coherent lists of the same entries build the same thing, or both fail. */
  lemma {:induction false} BuildAnyOrder(at: Slot, xs: seq<Entry>, ys: seq<Entry>)
    requires Coherent(xs) && Coherent(ys) && SameEntries(xs, ys)
    ensures Build(at, xs) == Build(at, ys)
    decreases |xs|
  {
    assert forall i :: 0 <= i < |ys| ==> ys[i] in xs;
    if xs == [] { return; }
    var e := xs[0];
    assert e in ys;
    var k :| 0 <= k < |ys| && ys[k] == e;
    var rest := HoistFrom(at, ys, k);
    assert xs[..0] + xs[1..] == xs[1..];
    forall x ensures x in xs[1..] <==> x in rest {
      WithoutOne(xs, 0, x);
      WithoutOne(ys, k, x);
    }
    var t := Insert(at, e.path, e.value);
    if t.Some? { BuildAnyOrder(Full(t.value), xs[1..], rest); }
  }

  lemma HoistFrom(at: Slot, ys: seq<Entry>, k: nat) returns (rest: seq<Entry>)
    requires Coherent(ys) && k < |ys|
    ensures rest == ys[..k] + ys[k + 1..] && Coherent(rest)
    ensures Build(at, ys) == Build(at, [ys[k]] + rest)
  {
    var front, back := ys[..k], ys[k + 1..];
    rest := front + back;
    assert ys == front + [ys[k]] + back && [ys[k]] + front + back == [ys[k]] + rest;
    Hoist(at, front, ys[k], back);
  }

  /** Entries that can each be written at a place, and are coherent, can all be written. */
  lemma {:induction false} CoherentBuilds(at: Slot, es: seq<Entry>)
    requires Coherent(es) && forall e :: e in es ==> Insert(at, e.path, e.value).Some?
    ensures Build(at, es).Some?
    decreases |es|
  {
    if es != [] {
      var t := Insert(at, es[0].path, es[0].value).value;
      forall e | e in es[1..] ensures Insert(Full(t), e.path, e.value).Some? {
        var i :| 1 <= i < |es| && es[i] == e;
        InsertStaysPossible(at, es[0].path, es[0].value, e.path, e.value);
      }
      CoherentBuilds(Full(t), es[1..]);
    }
  }

  /** A leaf found after a build was there before or was written by it. */
  lemma {:induction false} BuiltLeafIsEntry(at: Slot, es: seq<Entry>, p: Path, x: Scalar)
    requires Build(at, es).Some? && Get(Build(at, es).value, p) == Full(Leaf(x))
    ensures Entry(p, x) in es || Get(at, p) == Full(Leaf(x))
    decreases |es|
  {
    if es != [] {
      var t := Insert(at, es[0].path, es[0].value).value;
      BuiltLeafIsEntry(Full(t), es[1..], p, x);
      if Get(Full(t), p) == Full(Leaf(x)) { GetNoNewLeaf(at, es[0].path, es[0].value, p, x); }
      assert es[0] == Entry(es[0].path, es[0].value);
    }
  }

  lemma {:induction false} BuildKeeps(at: Slot, es: seq<Entry>, p: Path)
    requires Build(at, es).Some? && Get(at, p).Full? && forall e :: e in es ==> Compatible(e.path, p)
    ensures Get(Build(at, es).value, p) == Get(at, p)
    decreases |es|
  {
    if es != [] {
      GetUntouched(at, es[0].path, es[0].value, p);
      BuildKeeps(Full(Insert(at, es[0].path, es[0].value).value), es[1..], p);
    }
  }

  /** Every entry of a coherent build is found at its path. */
  lemma {:induction false} EntryIsBuilt(at: Slot, es: seq<Entry>, e: Entry)
    requires Coherent(es) && Build(at, es).Some? && e in es
    ensures Get(Build(at, es).value, e.path) == Full(Leaf(e.value))
    decreases |es|
  {
    var t := Insert(at, es[0].path, es[0].value).value;
    if e == es[0] {
      GetInserted(at, e.path, e.value);
      forall x | x in es[1..] ensures Compatible(x.path, e.path) {
        var i :| 1 <= i < |es| && es[i] == x;
        CoherentDistinct(es, i, 0);
      }
      BuildKeeps(Full(t), es[1..], e.path);
    } else {
      EntryIsBuilt(Full(t), es[1..], e);
    }
  }
}
