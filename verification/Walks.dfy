/** A walk over the fields that a dump emits, of which some are kept, up to an error or an exception. */
module Walks {
  import opened Wrappers
  import opened Sequences
  import opened Trees
  import opened Keys
  import opened Flatten

  /** How many of n fields are tried before the exception. */
  function Allowed(until: Option<nat>, n: nat): nat { if until.Some? && until.value < n then until.value else n }

  /** Whether it is thrown among n fields, and after how many more otherwise. */
  predicate Cut(until: Option<nat>, n: nat) { until.Some? && until.value < n }

  function Rest(until: Option<nat>, n: nat): Option<nat> {
    if until == None then None else Some(if until.value < n then 0 else until.value - n)
  }

  /** Where a walk is: the fields, the messages lost so far, whether an error is recorded, and when it is to be cut. */
  datatype Trail = Trail(fields: seq<Stored>, mute: nat, failed: bool, until: Option<nat>)

  /** What a heap never or always does: no error gets recorded, no message is lost, no name is copied. */
  datatype Nature = Nature(quiet: bool, tells: bool, nameless: bool)

  /** The fields that were kept, one flag for each of the first. */
  function Pick<T>(out: seq<T>, kept: seq<bool>): seq<T>
    requires |kept| <= |out|
  {
    if kept == [] then []
    else
      var n := |kept| - 1;
      Pick(out, kept[..n]) + if kept[n] then [out[n]] else []
  }

  function Missing(kept: seq<bool>): nat {
    if kept == [] then 0 else Missing(kept[..|kept| - 1]) + if kept[|kept| - 1] then 0 else 1
  }

  /**
   * A walk over the fields out, from t to e. The fields flagged in kept were added; each that is missing among them
   * lost its message; and the flags stop short of what was tried exactly when an error is recorded.
   */
  predicate Walk(t: Trail, out: seq<Stored>, kept: seq<bool>, e: Trail, n: Nature) {
    && |kept| <= Allowed(t.until, |out|) && e.fields == t.fields + Pick(out, kept) && e.mute == t.mute + Missing(kept)
    && (e.failed <==> t.failed || |kept| < Allowed(t.until, |out|)) && (t.failed ==> kept == [])
    && e.until == Rest(t.until, |out|)
    && (n.quiet && !t.failed ==> !e.failed) && (n.tells ==> Missing(kept) == 0) && (n.nameless ==> true !in kept)
  }

  /** The flags of one field that was tried. */
  function Flags(added: bool, fails: bool): seq<bool> { if added then [true] else if fails then [] else [false] }

  function LeafOf(name: string, value: Scalar): Stored {
    Stored(CString(name), if value.Text? then Text(CString(value.s)) else value)
  }

  lemma WalkOne(t: Trail, f: Stored, added: bool, e: Trail, n: Nature)
    requires e.fields == t.fields + (if added then [f] else []) && t.until == e.until == None
    requires (e.failed ==> !added) && (t.failed ==> e.failed) && (n.quiet && !t.failed ==> !e.failed)
    requires e.mute == t.mute + (if !added && !e.failed then 1 else 0) && (n.tells ==> e.mute == t.mute)
      && (n.nameless ==> !added)
    ensures Walk(t, [f], Flags(added, e.failed), e, n)
  {
    assert [added][..0] == [] && Pick([f], []) == [] && Missing([]) == 0;
  }

  lemma WalkNone(t: Trail, f: Stored, n: Nature)
    requires t.until == None
    ensures Walk(t.(until := Some(0)), [f], [], t.(until := Some(0)), n)
  {
  }

  lemma WalkUntil(t: Trail, f: Stored, kept: seq<bool>, e: Trail, n: Nature, until: Option<nat>)
    requires Walk(t, [f], kept, e, n) && t.until == None && !Cut(until, 1)
    ensures Walk(t.(until := until), [f], kept, e.(until := Rest(until, 1)), n)
  {
  }

  lemma {:induction false} PickConcat(a: seq<Stored>, b: seq<Stored>, j: seq<bool>, k: seq<bool>)
    requires |j| <= |a| && |k| <= |b| && (|j| == |a| || k == [])
    ensures Pick(a + b, j + k) == Pick(a, j) + Pick(b, k) && Missing(j + k) == Missing(j) + Missing(k)
    decreases |j| + |k|
  {
    if k != [] {
      var n := |k| - 1;
      assert (j + k)[..|j| + n] == j + k[..n];
      PickConcat(a, b, j, k[..n]);
      Regroup(Pick(a, j), Pick(b, k[..n]), if k[n] then [b[n]] else []);
    } else if j != [] {
      var n := |j| - 1;
      assert j + k == j && (j + k)[..n] == j[..n] + k;
      PickConcat(a, b, j[..n], k);
    }
  }

  /** Without a missing field the kept ones are the first. */
  lemma {:induction false} PickAll<T>(out: seq<T>, kept: seq<bool>)
    requires |kept| <= |out| && Missing(kept) == 0
    ensures Pick(out, kept) == out[..|kept|]
    decreases |kept|
  {
    if kept != [] {
      PickAll(out, kept[..|kept| - 1]);
      assert out[..|kept|] == out[..|kept| - 1] + [out[|kept| - 1]];
    }
  }

  lemma {:induction false} PickPrefix(out: seq<Stored>, kept: seq<bool>, n: nat)
    requires |kept| <= n <= |out|
    ensures Pick(out[..n], kept) == Pick(out, kept)
    decreases |kept|
  {
    if kept != [] { PickPrefix(out, kept[..|kept| - 1], n); }
  }

  /** One walk after another. */
  lemma WalkTwice(t: Trail, a: seq<Stored>, j: seq<bool>, mid: Trail, b: seq<Stored>, k: seq<bool>, e: Trail, n: Nature)
    requires Walk(t, a, j, mid, n) && !Cut(t.until, |a|) && Walk(mid, b, k, e, n)
    ensures Walk(t, a + b, j + k, e, n)
  {
    PickConcat(a, b, j, k);
    Regroup(t.fields, Pick(a, j), Pick(b, k));
  }

  /** A walk that was cut short is the same walk over whatever was to follow. */
  lemma WalkPrefix(t: Trail, out: seq<Stored>, kept: seq<bool>, e: Trail, n: Nature, whole: seq<Stored>)
    requires out <= whole && Cut(t.until, |out|) && Walk(t, out, kept, e, n)
    ensures Walk(t, whole, kept, e, n)
  {
    PickPrefix(whole, kept, |out|);
    assert whole[..|out|] == out;
  }

  lemma {:induction false} PickNone<T>(out: seq<T>, kept: seq<bool>)
    requires |kept| <= |out| && true !in kept
    ensures Pick(out, kept) == []
    decreases |kept|
  {
    if kept != [] {
      assert kept[|kept| - 1] in kept;
      PickNone(out, kept[..|kept| - 1]);
    }
  }

  lemma NoneKept(kept: seq<bool>)
    ensures true !in kept && Missing(kept) == 0 ==> kept == []
  {
    assert kept != [] ==> kept[|kept| - 1] in kept;
  }

  // ---------- What the loops of a dump have left ----------

  /** One more element of a loop: next is what it has dumped by then, and the front of the whole. */
  lemma DumpElemsNext(prefix: string, elems: seq<Value>, i: nat, depth: nat, out: seq<Stored>, next: seq<Stored>,
      whole: seq<Stored>)
    requires i < |elems| && out + DumpElems(prefix, elems[i..], i, depth) == whole
    requires next == out + Dump(Extend(prefix, Index(i)), elems[i], depth + 1)
    ensures next + DumpElems(prefix, elems[i + 1..], i + 1, depth) == whole && next <= whole
  {
    assert elems[i..][1..] == elems[i + 1..];
    Regroup(out, Dump(Extend(prefix, Index(i)), elems[i], depth + 1), DumpElems(prefix, elems[i + 1..], i + 1, depth));
  }

  lemma DumpPairsNext(prefix: string, pairs: seq<Pair>, i: nat, depth: nat, out: seq<Stored>, next: seq<Stored>,
      whole: seq<Stored>)
    requires i < |pairs| && out + DumpPairs(prefix, pairs[i..], depth) == whole
    requires next == out + Dump(Extend(prefix, Field(KeyText(pairs[i].key))), pairs[i].value, depth + 1)
    ensures next + DumpPairs(prefix, pairs[i + 1..], depth) == whole && next <= whole
  {
    assert pairs[i..][1..] == pairs[i + 1..];
    Regroup(out, Dump(Extend(prefix, Field(KeyText(pairs[i].key))), pairs[i].value, depth + 1),
      DumpPairs(prefix, pairs[i + 1..], depth));
  }

  lemma DumpFieldsNext(prefix: string, members: seq<Member>, i: nat, depth: nat, out: seq<Stored>,
      next: seq<Stored>, whole: seq<Stored>)
    requires i < |members| && out + DumpFields(prefix, members[i..], depth) == whole
    requires next == out + Dump(Extend(prefix, Field(members[i].name)), members[i].value, depth + 1)
    ensures next + DumpFields(prefix, members[i + 1..], depth) == whole && next <= whole
  {
    assert members[i..][1..] == members[i + 1..];
    Regroup(out, Dump(Extend(prefix, Field(members[i].name)), members[i].value, depth + 1),
      DumpFields(prefix, members[i + 1..], depth));
  }
}
