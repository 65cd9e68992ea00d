/**
 * Bytes and the little-endian reading of unsigned integers, shared by the
 * binary-format classifier and the socket framing.
 */
module Bytes {
  newtype byte = b: int | 0 <= b < 256

  /** 256 to the power `n`. */
  function Pow256(n: nat): (p: nat)
    ensures p >= 1
  {
    if n == 0 then 1 else 256 * Pow256(n - 1)
  }

  /** The unsigned value of `bytes` read least significant byte first. */
  function FromLittleEndian(bytes: seq<byte>): (v: nat)
    ensures v < Pow256(|bytes|)
  {
    if bytes == [] then 0 else bytes[0] as nat + 256 * FromLittleEndian(bytes[1..])
  }

  /** The `n` bytes of `v`, least significant first. */
  function ToLittleEndian(v: nat, n: nat): (bytes: seq<byte>)
    requires v < Pow256(n)
    ensures |bytes| == n
  {
    if n == 0 then [] else [(v % 256) as byte] + ToLittleEndian(v / 256, n - 1)
  }

  /** Writing a value and reading it back gives the value. */
  lemma {:induction false} FromToLittleEndian(v: nat, n: nat)
    requires v < Pow256(n)
    ensures FromLittleEndian(ToLittleEndian(v, n)) == v
  {
    if n > 0 {
      var bytes := ToLittleEndian(v, n);
      assert bytes[1..] == ToLittleEndian(v / 256, n - 1);
      FromToLittleEndian(v / 256, n - 1);
    }
  }

  /** Reading bytes and writing the value back gives the same bytes. */
  lemma {:induction false} ToFromLittleEndian(bytes: seq<byte>)
    ensures ToLittleEndian(FromLittleEndian(bytes), |bytes|) == bytes
  {
    if bytes != [] {
      var v := FromLittleEndian(bytes);
      var rest := FromLittleEndian(bytes[1..]);
      assert v % 256 == bytes[0] as nat && v / 256 == rest;
      ToFromLittleEndian(bytes[1..]);
    }
  }

  /** The bytes in the opposite order. */
  function Reverse(s: seq<byte>): (r: seq<byte>)
    ensures |r| == |s|
    ensures forall k :: 0 <= k < |s| ==> r[k] == s[|s| - 1 - k]
  {
    if s == [] then [] else Reverse(s[1..]) + [s[0]]
  }

  /** Reversing twice gives the original bytes. */
  lemma ReverseReverse(s: seq<byte>)
    ensures Reverse(Reverse(s)) == s
  {
  }

  /** The bitwise or of two bytes. */
  function Or(a: byte, b: byte): (r: byte)
    ensures r == 0 <==> a == 0 && b == 0
  {
    ((a as bv8) | (b as bv8)) as int as byte
  }
}
