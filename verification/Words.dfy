/**
 Machine integers, their memory images on a little-endian host, and the byte-order
 conversions the transport puts between them and the wire.
 */
module Words {
  type Byte = x: int | 0 <= x < 0x100
  type U16 = x: int | 0 <= x < 0x1_0000
  type U32 = x: int | 0 <= x < 0x1_0000_0000
  type U64 = x: int | 0 <= x < 0x1_0000_0000_0000_0000
  type I32 = x: int | -0x8000_0000 <= x < 0x8000_0000

  type Bytes = seq<Byte>

  lemma Assoc(a: Bytes, b: Bytes, c: Bytes)
    ensures (a + b) + c == a + (b + c)
  {
  }

  function Mem16(v: U16): (b: Bytes)
    ensures |b| == 2
  {
    [v % 0x100, v / 0x100]
  }

  function Mem32(v: U32): (b: Bytes)
    ensures |b| == 4
  {
    Mem16(v % 0x1_0000) + Mem16(v / 0x1_0000)
  }

  function Mem64(v: U64): (b: Bytes)
    ensures |b| == 8
  {
    Mem32(v % 0x1_0000_0000) + Mem32(v / 0x1_0000_0000)
  }

  function Word16(b: Bytes): U16
    requires |b| == 2
  {
    b[0] + (b[1] as int) * 0x100
  }

  function Word32(b: Bytes): U32
    requires |b| == 4
  {
    Word16(b[..2]) + 0x1_0000 * Word16(b[2..])
  }

  function Word64(b: Bytes): U64
    requires |b| == 8
  {
    Word32(b[..4]) + 0x1_0000_0000 * Word32(b[4..])
  }

  // htons and ntohs: one exchange of bytes serves both directions.
  function Swap16(v: U16): U16 {
    v % 0x100 * 0x100 + v / 0x100
  }

  // htonl and ntohl
  function Swap32(v: U32): U32 {
    Swap16(v % 0x1_0000) * 0x1_0000 + Swap16(v / 0x1_0000)
  }

  // hton64 and ntoh64: each half is swapped, but the halves keep their places.
  function Hton64(v: U64): U64 {
    Swap32(v / 0x1_0000_0000) * 0x1_0000_0000 + Swap32(v % 0x1_0000_0000)
  }

  lemma Swap16Involution(v: U16)
    ensures Swap16(Swap16(v)) == v
  {
    assert Swap16(v) / 0x100 == v % 0x100;
  }

  lemma Swap32Involution(v: U32)
    ensures Swap32(Swap32(v)) == v
  {
    var lo, hi := v % 0x1_0000, v / 0x1_0000;
    Swap16Involution(lo);
    Swap16Involution(hi);
    hide Swap16;
    assert Swap32(v) / 0x1_0000 == Swap16(lo) && Swap32(v) % 0x1_0000 == Swap16(hi);
  }

  /** Although the halves are not exchanged, applying the conversion twice is the identity. */
  lemma Hton64Involution(v: U64)
    ensures Hton64(Hton64(v)) == v
  {
    var lo, hi := v % 0x1_0000_0000, v / 0x1_0000_0000;
    Swap32Involution(lo);
    Swap32Involution(hi);
    assert Hton64(v) / 0x1_0000_0000 == Swap32(hi) && Hton64(v) % 0x1_0000_0000 == Swap32(lo);
  }

  // ---------- wire order ----------

  function Wire16(v: U16): (b: Bytes)
    ensures |b| == 2
  {
    [v / 0x100, v % 0x100]
  }

  function Wire32(v: U32): (b: Bytes)
    ensures |b| == 4
  {
    Wire16(v / 0x1_0000) + Wire16(v % 0x1_0000)
  }

  // Not network order throughout: the low half comes first.
  function Wire64(v: U64): (b: Bytes)
    ensures |b| == 8
  {
    Wire32(v % 0x1_0000_0000) + Wire32(v / 0x1_0000_0000)
  }

  function Unwire16(b: Bytes): U16
    requires |b| == 2
  {
    (b[0] as int) * 0x100 + b[1]
  }

  function Unwire32(b: Bytes): U32
    requires |b| == 4
  {
    (Unwire16(b[..2]) as int) * 0x1_0000 + Unwire16(b[2..])
  }

  function Unwire64(b: Bytes): U64
    requires |b| == 8
  {
    (Unwire32(b[4..]) as int) * 0x1_0000_0000 + Unwire32(b[..4])
  }

  /** The memory image of htons(v) is v most significant byte first; ntohs undoes it. */
  lemma Network16(v: U16, b: Bytes)
    requires |b| == 2
    ensures Mem16(Swap16(v)) == Wire16(v) && Swap16(Word16(b)) == Unwire16(b)
  {
    var hi, lo := v / 0x100, v % 0x100;
    assert Swap16(v) / 0x100 == lo && Swap16(v) % 0x100 == hi;
  }

  lemma Halves16(lo: U16, hi: U16)
    ensures var v := hi * 0x1_0000 + lo;
            v % 0x1_0000 == lo && v / 0x1_0000 == hi
  {
  }

  /** The memory image of htonl(v) is v most significant byte first; ntohl undoes it. */
  lemma Network32(v: U32, b: Bytes)
    requires |b| == 4
    ensures Mem32(Swap32(v)) == Wire32(v) && Swap32(Word32(b)) == Unwire32(b)
  {
    hide Swap16, Word16, Wire16, Unwire16, Mem16;
    var lo, hi := v % 0x1_0000, v / 0x1_0000;
    Halves16(Swap16(lo), Swap16(hi));
    Halves16(Word16(b[..2]), Word16(b[2..]));
    Network16(lo, b[..2]);
    Network16(hi, b[2..]);
  }

  lemma Halves(lo: U32, hi: U32)
    ensures var v := hi * 0x1_0000_0000 + lo;
            v % 0x1_0000_0000 == lo && v / 0x1_0000_0000 == hi
  {
  }

  /** hton64 sends the low half first, each half in network order; ntoh64 undoes it. */
  lemma Network64(v: U64, b: Bytes)
    requires |b| == 8
    ensures Mem64(Hton64(v)) == Wire64(v) && Hton64(Word64(b)) == Unwire64(b)
  {
    hide Swap32, Word32, Wire32, Unwire32, Mem32;
    var lo, hi := v % 0x1_0000_0000, v / 0x1_0000_0000;
    Halves(Swap32(lo), Swap32(hi));
    Halves(Word32(b[..4]), Word32(b[4..]));
    Network32(lo, b[..4]);
    Network32(hi, b[4..]);
  }

  lemma Unwire32Wire32(v: U32)
    ensures Unwire32(Wire32(v)) == v
  {
    assert Wire32(v)[..2] == Wire16(v / 0x1_0000) && Wire32(v)[2..] == Wire16(v % 0x1_0000);
  }

  lemma Unwire64Wire64(v: U64)
    ensures Unwire64(Wire64(v)) == v
  {
    var lo, hi := v % 0x1_0000_0000, v / 0x1_0000_0000;
    Unwire32Wire32(lo);
    Unwire32Wire32(hi);
    assert Wire64(v)[..4] == Wire32(lo) && Wire64(v)[4..] == Wire32(hi);
  }

  lemma Wire32Unwire32(b: Bytes)
    requires |b| == 4
    ensures Wire32(Unwire32(b)) == b
  {
    var hi, lo := Unwire16(b[..2]), Unwire16(b[2..]);
    Halves16(lo, hi);
    assert Wire16(hi) == b[..2] && Wire16(lo) == b[2..];
    hide Wire16, Unwire16;
  }

  lemma Wire64Unwire64(b: Bytes)
    requires |b| == 8
    ensures Wire64(Unwire64(b)) == b
  {
    var lo, hi := Unwire32(b[..4]), Unwire32(b[4..]);
    Halves(lo, hi);
    Wire32Unwire32(b[..4]);
    Wire32Unwire32(b[4..]);
    hide Wire32, Unwire32;
  }

  // Four bytes as digits to base 256.
  lemma Digits(a: Byte, b: Byte, c: Byte, d: Byte)
    ensures var v := ((a * 0x100 + b) * 0x100 + c) * 0x100 + d;
            && v / 0x1_0000 == a * 0x100 + b && v % 0x1_0000 == c * 0x100 + d
            && v / 0x100_0000 == a && v / 0x1_0000 % 0x100 == b && v / 0x100 % 0x100 == c && v % 0x100 == d
  {
    assert ((a * 0x100 + b) * 0x100 + c) * 0x100 + d == (a * 0x100 + b) * 0x1_0000 + (c * 0x100 + d);
  }

  /** Thirty-two bits go out most significant byte first, and so does each half of 64, the low half
      before the high one. */
  lemma WireDigits(v: U32, w: U64)
    ensures Wire32(v) == [v / 0x100_0000, v / 0x1_0000 % 0x100, v / 0x100 % 0x100, v % 0x100]
    ensures Wire64(w)[..4] == Wire32(w % 0x1_0000_0000) && Wire64(w)[4..] == Wire32(w / 0x1_0000_0000)
  {
    var hi, lo := v / 0x1_0000, v % 0x1_0000;
    Digits(hi / 0x100, hi % 0x100, lo / 0x100, lo % 0x100);
    hide Wire32;
    assert Wire64(w) == Wire32(w % 0x1_0000_0000) + Wire32(w / 0x1_0000_0000);
  }
}
