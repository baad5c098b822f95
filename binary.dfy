/** Go's fixed-width unsigned integers and the byte-order helpers of its
    encoding/binary package that the model needs. Values are unbounded
    integers restricted to each type's range; the `>>`, `&`, `<<` and `|` of
    the Go code on disjoint byte lanes are written as `/`, `%`, `*` and `+`. */
module Binary {

  type uint8 = x: int | 0 <= x < 0x100
  type uint16 = x: int | 0 <= x < 0x1_0000
  type uint32 = x: int | 0 <= x < 0x1_0000_0000
  type uintptr = x: int | 0 <= x < 0x1_0000_0000_0000_0000

  /** binary.BigEndian.PutUint16: the high byte is stored first. */
  function BigEndianPutUint16(v: uint16): (b: seq<uint8>) {
    [v / 0x100, v % 0x100]
  }

  /** binary.LittleEndian.Uint16: the first byte is the low byte. */
  function LittleEndianUint16(b: seq<uint8>): uint16
    requires |b| >= 2
  {
    b[0] as int + b[1] as int * 0x100
  }

  /** binary.LittleEndian.PutUint32: byte i is bits 8*i .. 8*i+7. */
  function LittleEndianPutUint32(v: uint32): (b: seq<uint8>) {
    [v % 0x100, v / 0x100 % 0x100, v / 0x1_0000 % 0x100, v / 0x100_0000]
  }

  /** The little-endian DWORD stored at `b[off..off + 4]`: binary.LittleEndian.Uint32,
      and also the way an x86/amd64 host reads a DWORD field of a table in memory. */
  function Uint32At(b: seq<uint8>, off: nat): uint32
    requires off + 4 <= |b|
  {
    b[off] as int + b[off + 1] as int * 0x100 + b[off + 2] as int * 0x1_0000 + b[off + 3] as int * 0x100_0000
  }

  lemma DivMod256(v: int, q: int, r: int)
    requires v == q * 0x100 + r && 0 <= r < 0x100
    ensures v / 0x100 == q && v % 0x100 == r
  {
  }

  /** Reading back what PutUint32 wrote gives the value. */
  lemma {:induction false} Uint32OfPutUint32(v: uint32)
    ensures |LittleEndianPutUint32(v)| == 4 && Uint32At(LittleEndianPutUint32(v), 0) == v
  {
    var q1 := v / 0x100;
    var q2 := q1 / 0x100;
    var q3 := q2 / 0x100;
    DivMod256(v, q1, v % 0x100);
    DivMod256(q1, q2, q1 % 0x100);
    DivMod256(q2, q3, q2 % 0x100);
    assert v / 0x1_0000 == q2;
    assert v / 0x100_0000 == q3;
  }

  /** Writing the value read from four bytes gives those bytes back. */
  lemma {:induction false} PutUint32OfUint32(b: seq<uint8>)
    requires |b| == 4
    ensures LittleEndianPutUint32(Uint32At(b, 0)) == b
  {
    var v := Uint32At(b, 0);
    var q1 := b[1] as int + b[2] as int * 0x100 + b[3] as int * 0x1_0000;
    var q2 := b[2] as int + b[3] as int * 0x100;
    DivMod256(v, q1, b[0]);
    DivMod256(q1, q2, b[1]);
    DivMod256(q2, b[3], b[2]);
    assert v / 0x1_0000 == q2;
    assert v / 0x100_0000 == b[3];
  }

  /** A DWORD read depends only on the four bytes it covers. */
  lemma Uint32AtSlice(b: seq<uint8>, off: nat)
    requires off + 4 <= |b|
    ensures Uint32At(b, off) == Uint32At(b[off..off + 4], 0)
  {
  }
}
