/** Facts about sequences and multisets of anything. */
module Sequences {
  lemma Regroup<T>(a: seq<T>, b: seq<T>, c: seq<T>)
    ensures a + (b + c) == a + b + c
  {
  }

  lemma SplitAt<T>(ss: seq<T>, r: T) returns (before: seq<T>, after: seq<T>)
    requires r in ss
    ensures ss == before + ([r] + after)
  {
    var i :| 0 <= i < |ss| && ss[i] == r;
    before, after := ss[..i], ss[i + 1..];
  }

  lemma MultisetMiddle<T>(before: seq<T>, r: T, after: seq<T>)
    ensures multiset(before + ([r] + after)) - multiset{r} == multiset(before + after)
  {
    assert multiset(before + ([r] + after)) == multiset(before) + (multiset{r} + multiset(after));
  }

  lemma MultisetTail<T>(rs: seq<T>)
    requires rs != []
    ensures multiset(rs[1..]) == multiset(rs) - multiset{rs[0]} && rs[0] in multiset(rs)
  {
    assert rs == [rs[0]] + rs[1..];
  }

  /** One element of both taken out leaves equal multisets. */
  lemma TakenOut<T>(rs: seq<T>, ss: seq<T>) returns (before: seq<T>, after: seq<T>)
    requires rs != [] && multiset(rs) == multiset(ss)
    ensures ss == before + ([rs[0]] + after) && multiset(rs[1..]) == multiset(before + after)
  {
    MultisetTail(rs);
    before, after := SplitAt(ss, rs[0]);
    MultisetMiddle(before, rs[0], after);
  }
}
