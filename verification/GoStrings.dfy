/** The Go string library as far as the program uses it. One char stands for one byte. */
module GoStrings {
  import opened Wrappers

  const MAX_INT: int := 0x7FFF_FFFF_FFFF_FFFF
  const MAX_UINT: int := 0xFFFF_FFFF_FFFF_FFFF

  /** strings.Cut: the text before the first c and the text after it. */
  function Cut(s: string, c: char): (r: Option<(string, string)>) {
    if s == [] then None
    else if s[0] == c then Some(([], s[1..]))
    else match Cut(s[1..], c)
      case None => None
      case Some((before, after)) => Some(([s[0]] + before, after))
  }

  /** Cut finds the first c, and fails only when there is none. */
  lemma {:induction false} CutIsFirst(s: string, c: char)
    ensures match Cut(s, c)
      case None => c !in s
      case Some((before, after)) => c !in before && s == before + [c] + after
  {
    if s != [] && s[0] != c {
      CutIsFirst(s[1..], c);
      assert s == [s[0]] + s[1..];
    }
  }

  lemma {:induction false} CutAt(x: string, c: char, y: string)
    requires c !in x
    ensures Cut(x + [c] + y, c) == Some((x, y))
  {
    var s := x + [c] + y;
    if x == [] {
      assert s[1..] == y;
    } else {
      assert s[1..] == x[1..] + [c] + y && x == [x[0]] + x[1..];
      CutAt(x[1..], c, y);
    }
  }

  /** Text added at the end goes to the part after the cut. */
  lemma {:induction false} CutLonger(s: string, c: char, y: string)
    requires Cut(s, c).Some?
    ensures Cut(s + y, c) == Some((Cut(s, c).value.0, Cut(s, c).value.1 + y))
  {
    assert (s + y)[1..] == s[1..] + y;
    if s[0] != c { CutLonger(s[1..], c, y); }
  }

  /** strings.LastIndexByte: the last position of c, or -1. */
  function LastIndexOf(s: string, c: char): (i: int)
    ensures -1 <= i < |s|
    ensures i >= 0 ==> s[i] == c
  {
    if s == [] then -1
    else if s[|s| - 1] == c then |s| - 1
    else LastIndexOf(s[..|s| - 1], c)
  }

  lemma {:induction false} LastIndexOfIs(s: string, c: char, i: nat)
    requires i < |s| && s[i] == c && c !in s[i + 1..]
    ensures LastIndexOf(s, c) == i
  {
    if i < |s| - 1 {
      assert s[i + 1..] == s[..|s| - 1][i + 1..] + [s[|s| - 1]];
      LastIndexOfIs(s[..|s| - 1], c, i);
    }
  }

  /** strings.Split(s, "."): one part more than there are dots. */
  function SplitDots(s: string): (parts: seq<string>)
    ensures |parts| >= 1
  {
    if s == [] then [[]]
    else
      var front, c := SplitDots(s[..|s| - 1]), s[|s| - 1];
      if c == '.' then front + [[]] else front[..|front| - 1] + [front[|front| - 1] + [c]]
  }

  /** Text added to the last part. */
  function Longer(parts: seq<string>, y: string): (r: seq<string>)
    requires parts != []
    ensures r != []
  {
    parts[..|parts| - 1] + [parts[|parts| - 1] + y]
  }

  lemma LongerTwice(parts: seq<string>, y: string, z: string)
    requires parts != []
    ensures Longer(Longer(parts, y), z) == Longer(parts, y + z)
  {
    assert parts[|parts| - 1] + y + z == parts[|parts| - 1] + (y + z);
  }

  lemma SplitDotsOne(x: string, c: char)
    requires c != '.'
    ensures SplitDots(x + [c]) == Longer(SplitDots(x), [c])
  {
    assert (x + [c])[..|x|] == x;
  }

  lemma SplitDotsOneMore(x: string, y: string, c: char)
    requires c != '.' && SplitDots(x + y) == Longer(SplitDots(x), y)
    ensures SplitDots(x + (y + [c])) == Longer(SplitDots(x), y + [c])
  {
    SplitDotsOne(x + y, c);
    LongerTwice(SplitDots(x), y, [c]);
    assert x + (y + [c]) == x + y + [c];
  }

  lemma LongerByNothing(x: string, parts: seq<string>)
    requires parts != []
    ensures x + [] == x && Longer(parts, []) == parts
  {
    assert parts[|parts| - 1] + [] == parts[|parts| - 1];
  }

  /** Text without dots added at the end goes to the last part. */
  lemma {:induction false} SplitDotsSuffix(x: string, y: string)
    requires '.' !in y
    ensures SplitDots(x + y) == Longer(SplitDots(x), y)
    decreases |y|
  {
    if y == [] {
      LongerByNothing(x, SplitDots(x));
    } else {
      var front, c := y[..|y| - 1], y[|y| - 1];
      SplitDotsSuffix(x, front);
      SplitDotsOneMore(x, front, c);
      assert front + [c] == y;
    }
  }

  lemma SplitDotsAppend(x: string, y: string)
    requires '.' !in y
    ensures SplitDots(x + "." + y) == SplitDots(x) + [y]
  {
    var s := x + ".";
    assert s[..|s| - 1] == x;
    SplitDotsSuffix(s, y);
    assert [] + y == y;
  }

  /** What strconv.Atoi can answer. */
  datatype Number = Valid(value: int) | Malformed | OutOfRange(clamped: int)

  predicate IsDigit(c: char) { '0' <= c <= '9' }

  function DigitValue(c: char): nat requires IsDigit(c) { (c as int) - ('0' as int) }

  function DigitChar(d: nat): (c: char)
    requires d < 10
    ensures IsDigit(c) && DigitValue(c) == d
  {
    ('0' as int + d) as char
  }

  /** The digit loop of strconv.ParseUint: an overflow is reported before a later bad character is seen. */
  function ScanDigits(s: string, acc: nat): (r: Number)
    requires acc <= MAX_UINT
    ensures r.Valid? ==> 0 <= r.value <= MAX_UINT
  {
    if s == [] then Valid(acc)
    else if !IsDigit(s[0]) then Malformed
    else
      var n := 10 * acc + DigitValue(s[0]);
      if n > MAX_UINT then OutOfRange(MAX_UINT) else ScanDigits(s[1..], n)
  }

  /** strconv.Atoi on a 64-bit platform: optional sign, decimal digits, clamped when out of range. */
  function Atoi(s: string): (r: Number)
    ensures r.Valid? ==> -MAX_INT - 1 <= r.value <= MAX_INT
  {
    var neg := s != [] && s[0] == '-';
    var digits := if s != [] && (s[0] == '-' || s[0] == '+') then s[1..] else s;
    if digits == [] then Malformed else
    match ScanDigits(digits, 0)
    case Malformed => Malformed
    case OutOfRange(_) => OutOfRange(if neg then -MAX_INT - 1 else MAX_INT)
    case Valid(n) =>
      if !neg && n > MAX_INT then OutOfRange(MAX_INT)
      else if neg && n > MAX_INT + 1 then OutOfRange(-MAX_INT - 1)
      else Valid(if neg then -n else n)
  }

  /** strconv.Itoa and std::to_string on a number that is not negative. */
  function Itoa(n: nat): (s: string)
    ensures s != [] && IsDigit(s[0])
  {
    if n < 10 then [DigitChar(n)] else Itoa(n / 10) + [DigitChar(n % 10)]
  }

  lemma {:induction false} ItoaDigits(n: nat)
    ensures forall c :: c in Itoa(n) ==> IsDigit(c)
  {
    if n >= 10 { ItoaDigits(n / 10); }
  }

  /** One more digit is read unless the number had already gone wrong. */
  lemma {:induction false} ScanDigitsAppend(s: string, d: char, acc: nat)
    requires acc <= MAX_UINT && IsDigit(d)
    ensures ScanDigits(s + [d], acc) ==
      match ScanDigits(s, acc)
      case Valid(v) =>
        if 10 * v + DigitValue(d) <= MAX_UINT then Valid(10 * v + DigitValue(d)) else OutOfRange(MAX_UINT)
      case wrong => wrong
    decreases |s|
  {
    if s == [] {
      assert s + [d] == [d] && [d][1..] == [];
    } else {
      assert (s + [d])[1..] == s[1..] + [d];
      var n := 10 * acc + if IsDigit(s[0]) then DigitValue(s[0]) else 0;
      if n <= MAX_UINT { ScanDigitsAppend(s[1..], d, n); }
    }
  }

  lemma {:induction false} ScanItoa(n: nat)
    requires n <= MAX_UINT
    ensures ScanDigits(Itoa(n), 0) == Valid(n)
  {
    if n < 10 {
      assert ScanDigits([], n) == Valid(n);
    } else {
      ScanItoa(n / 10);
      ScanDigitsAppend(Itoa(n / 10), DigitChar(n % 10), 0);
    }
  }

  // ---------- What is a number ----------

  predicate Digits(s: string) { s != [] && forall c :: c in s ==> IsDigit(c) }

  /** The number that digits stand for, however many there are. */
  function Decimal(s: string): nat
    requires forall c :: c in s ==> IsDigit(c)
  {
    if s == [] then 0 else 10 * Decimal(s[..|s| - 1]) + DigitValue(s[|s| - 1])
  }

  lemma {:induction false} ScanIsDecimal(s: string)
    requires forall c :: c in s ==> IsDigit(c)
    ensures ScanDigits(s, 0) == if Decimal(s) <= MAX_UINT then Valid(Decimal(s)) else OutOfRange(MAX_UINT)
  {
    if s != [] {
      var front, d := s[..|s| - 1], s[|s| - 1];
      assert s == front + [d];
      ScanIsDecimal(front);
      ScanDigitsAppend(front, d, 0);
    }
  }

  /** Digits are read as the number they stand for, with a sign or without, and clamped when it is out of range. */
  lemma AtoiReads(s: string)
    requires Digits(s)
    ensures Atoi(s) == Atoi("+" + s) == if Decimal(s) <= MAX_INT then Valid(Decimal(s)) else OutOfRange(MAX_INT)
    ensures var n: int := Decimal(s); Atoi("-" + s) == if n <= MAX_INT + 1 then Valid(-n) else OutOfRange(-MAX_INT - 1)
  {
    ScanIsDecimal(s);
    assert s[0] in s && ("+" + s)[1..] == s && ("-" + s)[1..] == s;
  }

  lemma {:induction false} ScanNeedsDigits(s: string, acc: nat)
    requires acc <= MAX_UINT && ScanDigits(s, acc).Valid?
    ensures forall c :: c in s ==> IsDigit(c)
    decreases |s|
  {
    if s != [] {
      ScanNeedsDigits(s[1..], 10 * acc + DigitValue(s[0]));
      assert s == [s[0]] + s[1..];
    }
  }

  /** Nothing else is a number. */
  lemma AtoiNeedsDigits(s: string)
    requires Atoi(s).Valid?
    ensures Digits(s) || (s != [] && s[0] in {'+', '-'} && Digits(s[1..]))
  {
    ScanNeedsDigits(if s[0] in {'+', '-'} then s[1..] else s, 0);
  }

  /** A number is printed without leading zeros. */
  lemma {:induction false} ItoaIsShort(n: nat)
    ensures Itoa(n)[0] == '0' ==> n == 0
  {
    if n >= 10 {
      ItoaIsShort(n / 10);
      assert Itoa(n)[0] == Itoa(n / 10)[0];
    }
  }

  /** Decimal printing is undone by decimal parsing. */
  lemma AtoiItoa(n: nat)
    requires n <= MAX_INT
    ensures Atoi(Itoa(n)) == Valid(n)
  {
    ScanItoa(n);
  }
}
