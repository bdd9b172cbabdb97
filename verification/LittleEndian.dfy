/** 32-bit integers as four bytes, the least significant first. */
module LittleEndian {
  import opened Pipes

  const TWO_31: int := 0x8000_0000
  const TWO_32: int := 0x1_0000_0000

  predicate Int32(v: int) { -TWO_31 <= v < TWO_31 }

  /** The wrap-around of 32-bit arithmetic. */
  function Wrap(v: int): (r: int)
    ensures Int32(r) && (Int32(v) ==> r == v) && (v == TWO_31 ==> r == -TWO_31)
  {
    (v + TWO_31) % TWO_32 - TWO_31
  }

  function U32(b: Bytes): (v: int)
    requires |b| == 4
    ensures 0 <= v < TWO_32
  {
    b[0] as int + 0x100 * (b[1] as int) + 0x1_0000 * (b[2] as int) + 0x100_0000 * (b[3] as int)
  }

  function I32(b: Bytes): (v: int)
    requires |b| == 4
    ensures Int32(v)
  {
    if U32(b) < TWO_31 then U32(b) else U32(b) - TWO_32
  }

  function Put(v: int): (b: Bytes)
    requires Int32(v)
    ensures |b| == 4
  {
    var u := if v < 0 then v + TWO_32 else v;
    [(u % 0x100) as Byte, (u / 0x100 % 0x100) as Byte, (u / 0x1_0000 % 0x100) as Byte, (u / 0x100_0000) as Byte]
  }

  lemma PutThenGet(v: int)
    requires Int32(v)
    ensures I32(Put(v)) == v
  {
    var u := if v < 0 then v + TWO_32 else v;
    assert u / 0x1_0000 == u / 0x100 / 0x100 && u / 0x100_0000 == u / 0x1_0000 / 0x100;
  }

  lemma GetThenPut(b: Bytes)
    requires |b| == 4
    ensures Put(I32(b)) == b
  {
    var u := U32(b);
    var w := b[1] as int + 0x100 * (b[2] as int) + 0x1_0000 * (b[3] as int);
    assert u == b[0] as int + 0x100 * w;
    assert u % 0x100 == b[0] as int && u / 0x100 == w;
    assert w / 0x100 == b[2] as int + 0x100 * (b[3] as int) && u / 0x1_0000 == w / 0x100;
    assert u / 0x100_0000 == u / 0x1_0000 / 0x100;
  }
}
