/** The whole tree of a value, and when the bridge's flattening cuts none of it off. */
module Wholes {
  import opened Trees
  import opened Keys
  import opened Flatten

  const CUT := Atom(Text("<depth-limit>"))

  /**
   * The value as a document: references and optionals seen through and kinds of container forgotten, as in its
   * shape, but at any depth, and with all the text of its leaves.
   */
  function Whole(v: Value): Doc
    decreases v, 0
  {
    match v
    case Reference(target) => Whole(target)
    case Vector(elems) => Listed(WholeElems(elems))
    case Set(members) => Listed(WholeElems(members))
    case Dict(pairs) => Named(WholePairs(pairs))
    case Optional(None) => Atom(Text("<nil>"))
    case Optional(Some(inner)) => Whole(inner)
    case Struct(fields) => Named(WholeFields(fields))
    case Bytes(b) => Atom(if Printable(b) && |b| <= MAX_TEXT then Text(b) else Binary(b))
    case Atomic(text) => Atom(Text(text))
  }

  function WholeElems(elems: seq<Value>): (r: seq<Doc>)
    ensures |r| == |elems| && forall k :: 0 <= k < |r| ==> r[k] == Whole(elems[k])
    decreases elems, 1
  {
    seq(|elems|, k requires 0 <= k < |elems| => Whole(elems[k]))
  }

  function WholePairs(pairs: seq<Pair>): (r: seq<Part>)
    ensures |r| == |pairs|
    ensures forall k :: 0 <= k < |r| ==>
      assert pairs[k].value < pairs[k];
      r[k] == Part(KeyText(pairs[k].key), Whole(pairs[k].value))
    decreases pairs, 1
  {
    seq(|pairs|, k requires 0 <= k < |pairs| =>
      assert pairs[k].value < pairs[k];
      Part(KeyText(pairs[k].key), Whole(pairs[k].value)))
  }

  function WholeFields(fields: seq<Member>): (r: seq<Part>)
    ensures |r| == |fields| && forall k :: 0 <= k < |r| ==> r[k] == Part(fields[k].name, Whole(fields[k].value))
    decreases fields, 1
  {
    seq(|fields|, k requires 0 <= k < |fields| => Part(fields[k].name, Whole(fields[k].value)))
  }

  /** No text has a NUL in it, and nothing lies below the depth limit but what reads as the mark left there. */
  predicate Intact(v: Value, depth: nat)
    decreases v
  {
    if depth > MAX_DEPTH then Whole(v) == CUT else
    match v
    case Reference(target) => Intact(target, 0)
    case Vector(elems) => forall e :: e in elems ==> Intact(e, depth + 1)
    case Set(members) => forall e :: e in members ==> Intact(e, depth + 1)
    case Dict(pairs) => forall p :: p in pairs ==> Intact(p.value, depth + 1)
    case Optional(None) => true
    case Optional(Some(inner)) => Intact(inner, depth + 1)
    case Struct(fields) => forall f :: f in fields ==> Intact(f.value, depth + 1)
    case Bytes(_) => true
    case Atomic(text) => NUL !in text
  }

  // ---------- The shape, element by element ----------

  lemma {:induction false} ShapeElemsAt(elems: seq<Value>, depth: nat, k: nat)
    requires k < |elems|
    ensures ShapeElems(elems, depth)[k] == Shape(elems[k], depth + 1)
    decreases k
  {
    if k > 0 { ShapeElemsAt(elems[1..], depth, k - 1); }
  }

  lemma {:induction false} ShapePairsAt(pairs: seq<Pair>, depth: nat, k: nat)
    requires k < |pairs|
    ensures |ShapePairs(pairs, depth)| == |pairs|
    ensures ShapePairs(pairs, depth)[k] == Part(KeyText(pairs[k].key), Shape(pairs[k].value, depth + 1))
  {
    if |pairs| > 1 { ShapePairsAt(pairs[1..], depth, if k > 0 then k - 1 else 0); }
  }

  lemma {:induction false} ShapeFieldsAt(fields: seq<Member>, depth: nat, k: nat)
    requires k < |fields|
    ensures |ShapeFields(fields, depth)| == |fields|
    ensures ShapeFields(fields, depth)[k] == Part(fields[k].name, Shape(fields[k].value, depth + 1))
  {
    if |fields| > 1 { ShapeFieldsAt(fields[1..], depth, if k > 0 then k - 1 else 0); }
  }

  // ---------- Whole and cut ----------

  lemma {:induction false} CStringIsWhole(s: string)
    ensures CString(s) == s <==> NUL !in s
  {
  }

  /** A document with some of it replaced by leaves. */
  predicate CutFrom(cut: Doc, doc: Doc)
    decreases doc
  {
    match doc
    case Atom(_) => cut.Atom?
    case Named(fields) => cut.Atom? || (cut.Named? && PartsCutFrom(cut.fields, fields))
    case Listed(elems) =>
      cut.Atom? ||
      (cut.Listed? && |cut.elems| == |elems| && forall k :: 0 <= k < |elems| ==> CutFrom(cut.elems[k], elems[k]))
  }

  predicate PartsCutFrom(cuts: seq<Part>, parts: seq<Part>)
    decreases parts
  {
    |cuts| == |parts|
    && forall k :: 0 <= k < |parts| ==> cuts[k].name == parts[k].name && CutFrom(cuts[k].doc, parts[k].doc)
  }

  /** What the bridge makes of a value is the whole of it, or cut from that: the whole exactly when it is intact. */
  lemma {:induction false} ShapeIsWholeExactly(v: Value, depth: nat)
    ensures CutFrom(Shape(v, depth), Whole(v))
    ensures Shape(v, depth) == Whole(v) <==> Intact(v, depth)
    decreases v, 0
  {
    if depth <= MAX_DEPTH {
      match v
      case Reference(target) => ShapeIsWholeExactly(target, 0);
      case Vector(elems) => ElemsAreWholeExactly(elems, depth);
      case Set(members) => ElemsAreWholeExactly(members, depth);
      case Dict(pairs) => PairsAreWholeExactly(pairs, depth);
      case Optional(None) =>
      case Optional(Some(inner)) => ShapeIsWholeExactly(inner, depth + 1);
      case Struct(fields) => FieldsAreWholeExactly(fields, depth);
      case Bytes(b) =>
      case Atomic(text) => CStringIsWhole(text);
    }
  }

  lemma {:induction false} ElemsAreWholeExactly(elems: seq<Value>, depth: nat)
    ensures CutFrom(Listed(ShapeElems(elems, depth)), Listed(WholeElems(elems)))
    ensures ShapeElems(elems, depth) == WholeElems(elems) <==> forall e :: e in elems ==> Intact(e, depth + 1)
    decreases elems, 1
  {
    forall k | 0 <= k < |elems|
      ensures CutFrom(ShapeElems(elems, depth)[k], WholeElems(elems)[k])
      ensures ShapeElems(elems, depth)[k] == WholeElems(elems)[k] <==> Intact(elems[k], depth + 1)
    {
      ShapeElemsAt(elems, depth, k);
      ShapeIsWholeExactly(elems[k], depth + 1);
    }
    if ShapeElems(elems, depth) != WholeElems(elems) {
      var k :| 0 <= k < |elems| && ShapeElems(elems, depth)[k] != WholeElems(elems)[k];
      assert elems[k] in elems;
    }
  }

  lemma {:induction false} PairsAreWholeExactly(pairs: seq<Pair>, depth: nat)
    ensures PartsCutFrom(ShapePairs(pairs, depth), WholePairs(pairs))
    ensures ShapePairs(pairs, depth) == WholePairs(pairs) <==> forall p :: p in pairs ==> Intact(p.value, depth + 1)
    decreases pairs, 1
  {
    forall k | 0 <= k < |pairs|
      ensures |ShapePairs(pairs, depth)| == |pairs|
      ensures ShapePairs(pairs, depth)[k].name == WholePairs(pairs)[k].name
      ensures CutFrom(ShapePairs(pairs, depth)[k].doc, WholePairs(pairs)[k].doc)
      ensures ShapePairs(pairs, depth)[k] == WholePairs(pairs)[k] <==> Intact(pairs[k].value, depth + 1)
    {
      assert pairs[k].value < pairs[k];
      ShapePairsAt(pairs, depth, k);
      ShapeIsWholeExactly(pairs[k].value, depth + 1);
    }
  }

  lemma {:induction false} FieldsAreWholeExactly(fields: seq<Member>, depth: nat)
    ensures PartsCutFrom(ShapeFields(fields, depth), WholeFields(fields))
    ensures ShapeFields(fields, depth) == WholeFields(fields) <==>
      forall f :: f in fields ==> Intact(f.value, depth + 1)
    decreases fields, 1
  {
    forall k | 0 <= k < |fields|
      ensures |ShapeFields(fields, depth)| == |fields|
      ensures ShapeFields(fields, depth)[k].name == WholeFields(fields)[k].name
      ensures CutFrom(ShapeFields(fields, depth)[k].doc, WholeFields(fields)[k].doc)
      ensures ShapeFields(fields, depth)[k] == WholeFields(fields)[k] <==> Intact(fields[k].value, depth + 1)
    {
      ShapeFieldsAt(fields, depth, k);
      ShapeIsWholeExactly(fields[k].value, depth + 1);
    }
  }
}
