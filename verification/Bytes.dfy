/** Bytes, C strings, and little-endian byte strings with the numbers they spell. */
module Bytes {
  type Byte = b: nat | b < 256

  /** A C string without its terminator. */
  type Str = s: seq<Byte> | forall j :: 0 <= j < |s| ==> s[j] != 0

  function Pow256(n: nat): nat {
    if n == 0 then 1 else 256 * Pow256(n - 1)
  }

  function FromBytes(b: seq<Byte>): (r: nat)
    ensures r < Pow256(|b|)
  {
    if b == [] then 0 else b[0] + 256 * FromBytes(b[1..])
  }

  function ToBytes(x: nat, n: nat): (b: seq<Byte>)
    ensures |b| == n
  {
    if n == 0 then [] else [x % 256] + ToBytes(x / 256, n - 1)
  }

  function ByteOf(x: nat, j: nat): Byte {
    if j == 0 then x % 256 else ByteOf(x / 256, j - 1)
  }

  lemma {:induction false} ByteOfFromBytes(b: seq<Byte>, j: nat)
    requires j < |b|
    ensures ByteOf(FromBytes(b), j) == b[j]
  {
    var rest := FromBytes(b[1..]);
    assert (b[0] + 256 * rest) % 256 == b[0] && (b[0] + 256 * rest) / 256 == rest;
    if j > 0 { ByteOfFromBytes(b[1..], j - 1); }
  }

  lemma {:induction false} BytesRoundTrip(x: nat, n: nat)
    requires x < Pow256(n)
    ensures FromBytes(ToBytes(x, n)) == x
  {
    if n > 0 {
      assert ToBytes(x, n)[1..] == ToBytes(x / 256, n - 1);
      BytesRoundTrip(x / 256, n - 1);
    }
  }
}
