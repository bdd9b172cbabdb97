/** Flat keys such as headers[0].name: how they are printed and how they are read back. */
module Keys {
  import opened GoStrings
  import opened Wrappers
  import opened Trees

  const NUL: char := 0 as char

  // ---------- Reading ----------

  /** The number left in idx when the error of strconv.Atoi is ignored. */
  function IndexValue(s: string): int {
    match Atoi(s)
    case Valid(n) => n
    case Malformed => 0
    case OutOfRange(c) => c
  }

  /** The base name and the text between the first brackets: None without brackets, no text when they do not close. */
  function Brackets(p: string): Option<(string, Option<string>)> {
    match Cut(p, '[')
    case None => None
    case Some((base, inner)) =>
      match Cut(inner, ']')
      case None => Some((base, None))
      case Some((text, _)) => Some((base, Some(text)))
  }

  /**
   * A segment that is read without a run-time panic: a bracket is closed, and its index
   * is neither negative nor so large that one more does not fit an int.
   */
  predicate WellFormedSegment(p: string) {
    match Brackets(p)
    case None => true
    case Some((_, None)) => false
    case Some((_, Some(text))) => 0 <= IndexValue(text) < MAX_INT
  }

  /** The base name and the index of a segment; anything after the first closing bracket is ignored. */
  function SegmentPath(p: string): (r: Path)
    requires WellFormedSegment(p)
    ensures 1 <= |r| <= 2 && r[0].Field? && (|r| == 2 ==> r[1].Index?)
  {
    match Brackets(p)
    case None => [Field(p)]
    case Some((base, Some(text))) => [Field(base), Index(IndexValue(text))]
  }

  function PartsPath(parts: seq<string>): (r: Path)
    requires forall p :: p in parts ==> WellFormedSegment(p)
    ensures parts != [] ==> r != [] && r[0].Field?
  {
    if parts == [] then [] else SegmentPath(parts[0]) + PartsPath(parts[1..])
  }

  lemma {:induction false} PartsPathAppend(parts: seq<string>, p: string)
    requires forall q :: q in parts ==> WellFormedSegment(q)
    requires WellFormedSegment(p)
    ensures PartsPath(parts + [p]) == PartsPath(parts) + SegmentPath(p)
  {
    if parts == [] {
      assert parts + [p] == [p] && PartsPath([]) == [];
    } else {
      assert (parts + [p])[1..] == parts[1..] + [p];
      PartsPathAppend(parts[1..], p);
    }
  }

  predicate WellFormed(key: string) { forall p :: p in SplitDots(key) ==> WellFormedSegment(p) }

  function PathOf(key: string): (r: Path)
    requires WellFormed(key)
    ensures r != [] && r[0].Field?
  {
    PartsPath(SplitDots(key))
  }

  // ---------- Printing ----------

  function IndexText(i: nat): string { "[" + Itoa(i) + "]" }

  function Extend(prefix: string, s: Step): string {
    match s
    case Field(name) => if prefix == "" then name else prefix + "." + name
    case Index(i) => prefix + IndexText(i)
  }

  function KeyOf(p: Path): string {
    if p == [] then "" else Extend(KeyOf(p[..|p| - 1]), p[|p| - 1])
  }

  /** Names that survive printing, the empty one included: free of the two separators and of NUL. */
  predicate CleanName(name: string) { '.' !in name && '[' !in name && NUL !in name }

  predicate CleanStep(s: Step) {
    match s
    case Field(name) => CleanName(name)
    case Index(i) => i < MAX_INT
  }

  predicate CleanPath(p: Path) { p != [] && p[0].Field? && forall s :: s in p ==> CleanStep(s) }

  /** An empty name at the very front of another: nothing is printed for it, not even a dot. */
  predicate BlankFirst(p: Path) { |p| > 1 && p[0] == Field("") && p[1].Field? }

  /** An index right after an index: an element of a list that is itself an element of a list. */
  predicate Nested(p: Path) { exists k :: 0 < k < |p| && p[k - 1].Index? && p[k].Index? }

  /** The path without the indexes that follow an index. */
  function Collapse(p: Path): Path {
    if p == [] then []
    else
      var front, last := p[..|p| - 1], p[|p| - 1];
      if front != [] && front[|front| - 1].Index? && last.Index? then Collapse(front) else Collapse(front) + [last]
  }

  lemma {:induction false} CollapseLength(p: Path)
    ensures |Collapse(p)| <= |p|
    ensures Nested(p) ==> |Collapse(p)| < |p|
    ensures !Nested(p) ==> Collapse(p) == p
  {
    if p == [] { return; }
    var front, last := p[..|p| - 1], p[|p| - 1];
    assert p == front + [last];
    CollapseLength(front);
    if Nested(p) && !Nested(front) {
      var k :| 0 < k < |p| && p[k - 1].Index? && p[k].Index?;
      assert forall j :: 0 < j < |front| ==> !(front[j - 1].Index? && front[j].Index?);
      assert k == |p| - 1;
    }
    if Nested(front) {
      var k :| 0 < k < |front| && front[k - 1].Index? && front[k].Index?;
      assert p[k - 1].Index? && p[k].Index?;
    }
  }

  // ---------- Printing, then reading ----------

  lemma NameSegment(name: string)
    requires CleanName(name)
    ensures WellFormedSegment(name) && SegmentPath(name) == [Field(name)] && SplitDots(name) == [name]
  {
    SplitDotsSuffix([], name);
    assert [] + name == name;
    CutIsFirst(name, '[');
  }

  lemma IndexSegment(name: string, i: nat)
    requires CleanName(name) && i < MAX_INT
    ensures var p := name + IndexText(i);
      Brackets(p).Some? && WellFormedSegment(p) && SegmentPath(p) == [Field(name), Index(i)]
  {
    var inner := Itoa(i) + [']'] + [];
    assert name + IndexText(i) == name + ['['] + inner;
    CutAt(name, '[', inner);
    ItoaDigits(i);
    CutAt(Itoa(i), ']', []);
    AtoiItoa(i);
  }

  /** Text after a bracketed segment changes nothing. */
  lemma LongerSegment(p: string, y: string)
    requires Brackets(p).Some? && WellFormedSegment(p)
    ensures Brackets(p + y) == Brackets(p)
  {
    CutLonger(p, '[', y);
    CutLonger(Cut(p, '[').value.1, ']', y);
  }

  /**
   * What stands in the brackets: digits are the index, unless it or one more is too large for an int, and then the
   * helper panics; so it does below zero. Text that does not start like a number is the index 0.
   */
  lemma IndexReads(base: string, text: string)
    requires '[' !in base && ']' !in text
    ensures var p := base + "[" + text + "]";
      && (Digits(text) ==> (WellFormedSegment(p) <==> Decimal(text) < MAX_INT))
      && (Digits(text) && WellFormedSegment(p) ==> SegmentPath(p) == [Field(base), Index(Decimal(text))])
      && (text != "" && text[0] == '-' && Digits(text[1..]) ==> (WellFormedSegment(p) <==> Decimal(text[1..]) == 0))
      && (text == "" || (text[0] !in {'+', '-'} && !IsDigit(text[0])) ==>
            WellFormedSegment(p) && SegmentPath(p) == [Field(base), Index(0)])
  {
    var inner := text + [']'] + [];
    assert base + "[" + text + "]" == base + ['['] + inner;
    CutAt(base, '[', inner);
    CutAt(text, ']', []);
    if Digits(text) { AtoiReads(text); }
    if text != "" && text[0] == '-' && Digits(text[1..]) {
      AtoiReads(text[1..]);
      assert "-" + text[1..] == text;
    }
  }

  /** A bracket that is not closed makes the helper panic. */
  lemma UnclosedPanics(base: string, text: string)
    requires '[' !in base && ']' !in text
    ensures !WellFormedSegment(base + "[" + text)
  {
    assert base + "[" + text == base + ['['] + text;
    CutAt(base, '[', text);
    CutIsFirst(text, ']');
  }

  function LastPart(key: string): string {
    var parts := SplitDots(key);
    parts[|parts| - 1]
  }

  predicate ReadsAs(key: string, p: Path) {
    && (key == "" ==> p == [Field("")]) && WellFormed(key) && PathOf(key) == Collapse(p)
    && p != []
    && match p[|p| - 1]
       case Field(name) => LastPart(key) == name
       case Index(_) => Brackets(LastPart(key)).Some?
  }

  lemma PathOfParts(key: string, front: seq<string>, last: string)
    requires SplitDots(key) == front + [last] && WellFormedSegment(last)
    requires forall p :: p in front ==> WellFormedSegment(p)
    ensures WellFormed(key) && LastPart(key) == last
    ensures PathOf(key) == PartsPath(front) + SegmentPath(last)
  {
    PartsPathAppend(front, last);
  }

  lemma ExtendedByName(key: string, p: Path, name: string)
    requires ReadsAs(key, p) && CleanName(name) && key != ""
    ensures ReadsAs(Extend(key, Field(name)), p + [Field(name)])
  {
    SplitDotsAppend(key, name);
    NameSegment(name);
    PartsPathAppend(SplitDots(key), name);
    assert (p + [Field(name)])[..|p|] == p;
  }

  /** The last segment of a key, with an index added, still says how to read it. */
  lemma IndexedLastPart(last: string, s: Step, i: nat)
    requires WellFormedSegment(last) && i < MAX_INT && (s.Field? ==> CleanStep(s))
    requires match s case Field(name) => last == name case Index(_) => Brackets(last).Some?
    ensures var longer := last + IndexText(i);
      && Brackets(longer).Some? && WellFormedSegment(longer)
      && SegmentPath(longer) == SegmentPath(last) + if s.Field? then [Index(i)] else []
  {
    if s.Field? {
      IndexSegment(last, i);
      NameSegment(last);
    } else {
      LongerSegment(last, IndexText(i));
    }
  }

  /** A key that reads as p, with text added to its last part that adds an index. */
  lemma ExtendedBySuffix(key: string, p: Path, i: nat, suffix: string)
    requires ReadsAs(key, p) && '.' !in suffix && suffix != ""
    requires WellFormedSegment(LastPart(key)) && WellFormedSegment(LastPart(key) + suffix)
    requires Brackets(LastPart(key) + suffix).Some?
    requires SegmentPath(LastPart(key) + suffix) ==
      SegmentPath(LastPart(key)) + if p[|p| - 1].Field? then [Index(i)] else []
    ensures ReadsAs(key + suffix, p + [Index(i)])
  {
    var parts, last := SplitDots(key), LastPart(key);
    var front := parts[..|parts| - 1];
    assert parts == front + [last];
    assert forall q :: q in front ==> q in parts;
    SplitDotsSuffix(key, suffix);
    PathOfParts(key, front, last);
    PathOfParts(key + suffix, front, last + suffix);
    CollapseIndex(p, i);
  }

  lemma ExtendedByIndex(key: string, p: Path, i: nat)
    requires ReadsAs(key, p) && i < MAX_INT && (p[|p| - 1].Field? ==> CleanStep(p[|p| - 1]))
    ensures ReadsAs(Extend(key, Index(i)), p + [Index(i)])
  {
    assert LastPart(key) in SplitDots(key);
    ItoaDigits(i);
    IndexedLastPart(LastPart(key), p[|p| - 1], i);
    ExtendedBySuffix(key, p, i, IndexText(i));
  }

  lemma CollapseIndex(p: Path, i: nat)
    requires p != []
    ensures Collapse(p + [Index(i)]) == Collapse(p) + if p[|p| - 1].Field? then [Index(i)] else []
  {
    assert (p + [Index(i)])[..|p|] == p;
  }

  lemma SingleNameReadsAs(name: string)
    requires CleanName(name)
    ensures ReadsAs(KeyOf([Field(name)]), [Field(name)])
  {
    NameSegment(name);
    var p := [Field(name)];
    assert p[..|p| - 1] == [] && KeyOf([]) == "" && Collapse([]) == [];
    assert PartsPath([name]) == SegmentPath(name) + PartsPath([]);
  }

  lemma ExtendedReadsAs(front: Path, last: Step)
    requires ReadsAs(KeyOf(front), front) && CleanStep(last) && forall s :: s in front ==> CleanStep(s)
    requires !BlankFirst(front + [last])
    ensures ReadsAs(KeyOf(front + [last]), front + [last])
  {
    assert (front + [last])[..|front|] == front;
    assert front[|front| - 1] in front;
    match last
    case Field(name) => ExtendedByName(KeyOf(front), front, name);
    case Index(i) => ExtendedByIndex(KeyOf(front), front, i);
  }

  /** What reading makes of a printed key: the path, less every index that follows an index. */
  lemma {:induction false} PrintedKeyReadsAs(p: Path)
    requires CleanPath(p) && !BlankFirst(p)
    ensures ReadsAs(KeyOf(p), p)
  {
    var front, last := p[..|p| - 1], p[|p| - 1];
    assert p == front + [last] && CleanStep(last);
    if front == [] {
      SingleNameReadsAs(last.name);
    } else {
      assert p[0] == front[0];
      PrintedKeyReadsAs(front);
      ExtendedReadsAs(front, last);
    }
  }

  /** An empty name in front of another is not printed. */
  lemma {:induction false} BlankIsLost(p: Path)
    requires BlankFirst(p)
    ensures KeyOf(p) == KeyOf(p[1..])
  {
    var front := p[..|p| - 1];
    if |p| > 2 {
      BlankIsLost(front);
      assert p[1..][..|p| - 2] == front[1..];
    } else {
      assert front == [Field("")] && front[..0] == [] && KeyOf([]) == "" && KeyOf(front) == "";
      assert p[1..][..0] == [];
    }
  }

  /** A printed path reads as no longer a path, and as a shorter one when something was lost. */
  lemma {:induction false} ReadsNoLonger(p: Path)
    requires CleanPath(p)
    ensures WellFormed(KeyOf(p)) && |PathOf(KeyOf(p))| <= |p|
    ensures Nested(p) || BlankFirst(p) ==> |PathOf(KeyOf(p))| < |p|
    ensures !Nested(p) && !BlankFirst(p) ==> PathOf(KeyOf(p)) == p
  {
    if BlankFirst(p) {
      BlankIsLost(p);
      ReadsNoLonger(p[1..]);
    } else {
      PrintedKeyReadsAs(p);
      CollapseLength(p);
    }
  }

  /** A clean path survives printing and reading exactly when no index follows an index and no blank is at its front. */
  lemma KeyRoundTripExactly(p: Path)
    requires CleanPath(p)
    ensures WellFormed(KeyOf(p))
    ensures PathOf(KeyOf(p)) == p <==> !Nested(p) && !BlankFirst(p)
  {
    ReadsNoLonger(p);
  }

  // ---------- What a key can read as ----------

  lemma {:induction false} PartsHaveNoDots(s: string, c: char)
    ensures forall part :: part in SplitDots(s) ==> '.' !in part && (c !in s ==> c !in part)
  {
    if s != [] {
      var front, last := s[..|s| - 1], s[|s| - 1];
      PartsHaveNoDots(front, c);
      assert s == front + [last];
    }
  }

  /** No index follows an index, and no name has a separator in it, or a character that is not in the key. */
  lemma {:induction false} PartsPathIsPlain(parts: seq<string>, c: char)
    requires forall p :: p in parts ==> WellFormedSegment(p) && '.' !in p && c !in p
    ensures !Nested(PartsPath(parts))
    ensures forall s :: s in PartsPath(parts) && s.Field? ==> '.' !in s.name && '[' !in s.name && c !in s.name
  {
    if parts != [] {
      var p, rest := parts[0], PartsPath(parts[1..]);
      PartsPathIsPlain(parts[1..], c);
      CutIsFirst(p, '[');
      var first := SegmentPath(p);
      var path: Path := first + rest;
      assert PartsPath(parts) == path;
      forall k | 0 < k < |path| ensures !(path[k - 1].Index? && path[k].Index?) {
        if k > |first| { assert path[k - 1] == rest[k - 1 - |first|] && path[k] == rest[k - |first|]; }
      }
    }
  }

  lemma KeyIsPlain(key: string)
    requires WellFormed(key) && NUL !in key
    ensures !Nested(PathOf(key)) && forall s :: s in PathOf(key) && s.Field? ==> CleanName(s.name)
  {
    PartsHaveNoDots(key, NUL);
    PartsPathIsPlain(SplitDots(key), NUL);
  }

  lemma {:induction false} FirstPartIsBlank(s: string)
    requires SplitDots(s)[0] == "" && |SplitDots(s)| > 1
    ensures s != "" && s[0] == '.'
  {
    var front := s[..|s| - 1];
    if |SplitDots(front)| > 1 {
      FirstPartIsBlank(front);
    } else if front != "" {
      NoDotsOnePart(front);
    }
  }

  lemma {:induction false} NoDotsOnePart(s: string)
    requires |SplitDots(s)| == 1
    ensures SplitDots(s) == [s]
  {
    if s != "" {
      NoDotsOnePart(s[..|s| - 1]);
      assert s == s[..|s| - 1] + [s[|s| - 1]];
    }
  }

  /** A key that does not start with a dot does not read as an empty name in front of another. */
  lemma BlankNeedsDot(key: string)
    requires WellFormed(key) && BlankFirst(PathOf(key))
    ensures key != "" && key[0] == '.'
  {
    var parts := SplitDots(key);
    CutIsFirst(parts[0], '[');
    assert PartsPath(parts) == SegmentPath(parts[0]) + PartsPath(parts[1..]);
    FirstPartIsBlank(key);
  }

  /** And no key printed from clean names starts with one. */
  lemma {:induction false} PrintedHasNoDotFirst(p: Path)
    requires forall s :: s in p ==> CleanStep(s)
    ensures KeyOf(p) != "" ==> KeyOf(p)[0] != '.'
  {
    if p != [] {
      var front, last := p[..|p| - 1], p[|p| - 1];
      assert last in p;
      PrintedHasNoDotFirst(front);
    }
  }
}
