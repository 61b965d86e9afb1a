/** Bytes (the elements of a `Uint8Array`) and the little-endian unsigned
    integer encoding that `DataView.setUint16`/`setUint32` use when their
    `littleEndian` flag is set. */
module Bytes {

  type Byte = x: int | 0 <= x < 256

  /** The bytes stored for the character codes of `s`, one per character,
      each reduced modulo 256 (ToUint8), as `setUint8` and an indexed
      `Uint8Array` store do. */
  function Codes(s: string): (r: seq<Byte>)
    ensures |r| == |s|
    ensures forall i :: 0 <= i < |s| ==> r[i] == s[i] as int % 256
  {
    seq(|s|, i requires 0 <= i < |s| => s[i] as int % 256)
  }

  /** 256 to the power `n`. */
  function Pow256(n: nat): (r: nat)
    ensures r >= 1
  {
    if n == 0 then 1 else 256 * Pow256(n - 1)
  }

  /** The `n` low-order bytes of `v`, least significant first. */
  function LE(v: nat, n: nat): (r: seq<Byte>)
    ensures |r| == n
  {
    if n == 0 then [] else [v % 256] + LE(v / 256, n - 1)
  }

  /** The unsigned integer a little-endian byte sequence denotes. */
  function FromLE(bs: seq<Byte>): (v: nat)
    ensures v < Pow256(|bs|)
  {
    if bs == [] then 0 else bs[0] + 256 * FromLE(bs[1..])
  }

  /** Reading back an encoded value that fits gives the value. */
  lemma {:induction false} FromLEOfLE(v: nat, n: nat)
    requires v < Pow256(n)
    ensures FromLE(LE(v, n)) == v
  {
    if n > 0 {
      FromLEOfLE(v / 256, n - 1);
      assert LE(v, n)[1..] == LE(v / 256, n - 1);
    }
  }

  /** Encoding the value a byte sequence denotes gives the sequence back. */
  lemma {:induction false} LEOfFromLE(bs: seq<Byte>)
    ensures LE(FromLE(bs), |bs|) == bs
  {
    if bs != [] {
      var v := FromLE(bs);
      LEOfFromLE(bs[1..]);
      assert v % 256 == bs[0] && v / 256 == FromLE(bs[1..]);
    }
  }

  /** The bytes a `setUint16(offset, v, true)` stores: `v` reduced modulo
      2^16 (ToUint16), least significant byte first. */
  function U16(v: int): (r: seq<Byte>)
    ensures |r| == 2 && FromLE(r) == v % 0x1_0000
  {
    FromLEOfLE(v % 0x1_0000, 2);
    LE(v % 0x1_0000, 2)
  }

  /** The bytes a `setUint32(offset, v, true)` stores: `v` reduced modulo
      2^32 (ToUint32), least significant byte first. */
  function U32(v: int): (r: seq<Byte>)
    ensures |r| == 4 && FromLE(r) == v % 0x1_0000_0000
  {
    FromLEOfLE(v % 0x1_0000_0000, 4);
    LE(v % 0x1_0000_0000, 4)
  }
}
