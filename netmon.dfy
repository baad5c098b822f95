/** netmon.go: the connection record and the two conversions of packed
    DWORD fields. A port is stored in network byte order in the low 16 bits
    of a host-order DWORD; an IPv4 address is a DWORD whose least
    significant byte is the first octet. */
module Netmon {
  import opened Binary

  /** An IPv4 address as its four octets, first octet first. */
  type IPv4 = s: seq<uint8> | |s| == 4 witness [0, 0, 0, 0]

  /** NetPortInfo: one TCP connection and the name of the process that owns it. */
  datatype NetPortInfo = NetPortInfo(
    name: string,
    pid: uint32,
    localIP: IPv4,
    localPort: uint16,
    remoteIP: IPv4,
    remotePort: uint16)

  /** fetchBigEndianUint16: truncate to 16 bits, store big-endian, read back little-endian. */
  function FetchBigEndianUint16(v: uint32): uint16 {
    LittleEndianUint16(BigEndianPutUint16(v % 0x1_0000))
  }

  /** translateIP: store the DWORD little-endian and take the four bytes as the octets. */
  function TranslateIP(v: uint32): IPv4 {
    var b := LittleEndianPutUint32(v);
    [b[0], b[1], b[2], b[3]]
  }

  /** Only the low 16 bits of the field matter. */
  lemma FetchUsesLow16Bits(v: uint32, w: uint32)
    requires v % 0x1_0000 == w % 0x1_0000
    ensures FetchBigEndianUint16(v) == FetchBigEndianUint16(w)
  {
  }

  /** The port is the low two bytes of the field, swapped: ((v & 0xFF) << 8) | ((v >> 8) & 0xFF). */
  lemma {:induction false} FetchSwapsLowBytes(v: uint32)
    ensures FetchBigEndianUint16(v) == (v % 0x100) * 0x100 + (v / 0x100) % 0x100
  {
    var x := v % 0x1_0000;
    var q := v / 0x1_0000;
    // v = q * 0x1_0000 + (x / 0x100) * 0x100 + x % 0x100
    DivMod256(x, x / 0x100, x % 0x100);
    DivMod256(v, q * 0x100 + x / 0x100, x % 0x100);
    DivMod256(q * 0x100 + x / 0x100, q, x / 0x100);
  }

  /** Swapping twice gives back the low 16 bits: the conversion is its own inverse. */
  lemma {:induction false} FetchIsInvolution(v: uint32)
    ensures FetchBigEndianUint16(FetchBigEndianUint16(v)) == v % 0x1_0000
  {
    var p := FetchBigEndianUint16(v);
    FetchSwapsLowBytes(v);
    FetchSwapsLowBytes(p);
    var lo, hi := v % 0x100, (v / 0x100) % 0x100;
    DivMod256(p, lo, hi);
    var x := v % 0x1_0000;
    DivMod256(x, x / 0x100, x % 0x100);
    DivMod256(v, v / 0x100, lo);
    assert x % 0x100 == lo;
    assert x / 0x100 == hi by {
      DivMod256(v / 0x100, v / 0x1_0000, hi);
      DivMod256(v, (v / 0x1_0000) * 0x100 + hi, lo);
    }
  }

  /** The field a platform stores for port `p` converts back to `p`. */
  lemma StoredPortRoundTrip(p: uint16)
    ensures FetchBigEndianUint16((p % 0x100) * 0x100 + p / 0x100) == p
  {
    var w := (p % 0x100) * 0x100 + p / 0x100;
    FetchSwapsLowBytes(w);
    DivMod256(w, p % 0x100, p / 0x100);
    DivMod256(p, p / 0x100, p % 0x100);
    assert (w % 0x100) * 0x100 + (w / 0x100) % 0x100 == p;
  }

  lemma PortExamples()
    ensures FetchBigEndianUint16(0x5000) == 80
    ensures FetchBigEndianUint16(0x901F) == 8080
    ensures FetchBigEndianUint16(0xBB01) == 443
  {
  }

  /** Octet i is bits 8*i .. 8*i+7 of the field: octet 0 is the least significant byte. */
  lemma TranslateIPOctets(v: uint32)
    ensures TranslateIP(v)[0] == v % 0x100
    ensures TranslateIP(v)[1] == (v / 0x100) % 0x100
    ensures TranslateIP(v)[2] == (v / 0x1_0000) % 0x100
    ensures TranslateIP(v)[3] == (v / 0x100_0000) % 0x100
  {
  }

  /** Packing four octets little-endian and converting gives them back in order. */
  lemma TranslateIPOfPacked(ip: IPv4)
    ensures TranslateIP(Uint32At(ip, 0)) == ip
  {
    PutUint32OfUint32(ip);
  }

  /** Distinct fields give distinct addresses. */
  lemma TranslateIPInjective(v: uint32, w: uint32)
    requires TranslateIP(v) == TranslateIP(w)
    ensures v == w
  {
    Uint32OfPutUint32(v);
    Uint32OfPutUint32(w);
    assert LittleEndianPutUint32(v) == TranslateIP(v);
    assert LittleEndianPutUint32(w) == TranslateIP(w);
  }
}
