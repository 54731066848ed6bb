/** Disk contents as 512-byte sectors of 16-bit words, and the same contents as bytes. */
module Bytes {
  type Byte = x: int | 0 <= x < 256
  type Word = x: int | 0 <= x < 65536
  type Sector = s: seq<Word> | |s| == 256 witness seq(256, _ => 0)

  function Low(w: Word): Byte { w % 256 }
  function High(w: Word): Byte { w / 256 }
  function Pack(lo: Byte, hi: Byte): Word { lo + 256 * hi }

  lemma PackParts(lo: Byte, hi: Byte)
    ensures Low(Pack(lo, hi)) == lo && High(Pack(lo, hi)) == hi
  {
  }

  /** The byte at address `a`: even addresses are low halves of words. */
  function ByteAt(sectors: seq<Sector>, a: nat): Byte
    requires a < 512 * |sectors|
  {
    var w := sectors[a / 512][a % 512 / 2];
    if a % 2 == 0 then Low(w) else High(w)
  }

  function Flatten(sectors: seq<Sector>): (r: seq<Byte>)
    ensures |r| == 512 * |sectors|
    ensures forall a :: 0 <= a < |r| ==> r[a] == ByteAt(sectors, a)
  {
    seq(512 * |sectors|, a requires 0 <= a < 512 * |sectors| => ByteAt(sectors, a))
  }

  /** Word `w` of sector `q` holds the two bytes at its address. */
  lemma WordBytes(sectors: seq<Sector>, q: nat, w: nat)
    requires q < |sectors| && w < 256
    ensures 512 * q + 2 * w + 1 < 512 * |sectors|
    ensures ByteAt(sectors, 512 * q + 2 * w) == Low(sectors[q][w])
    ensures ByteAt(sectors, 512 * q + 2 * w + 1) == High(sectors[q][w])
  {
    var a := 512 * q + 2 * w;
    assert a / 512 == q && a % 512 == 2 * w;
    assert (a + 1) / 512 == q && (a + 1) % 512 == 2 * w + 1;
  }
}
