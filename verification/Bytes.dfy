/** Bytes, the eight-byte FRU block, and the zero-sum checksum shared by the FRU modules. */
module Bytes {

  type byte = b: int | 0 <= b < 256

  datatype Option<+T> = None | Some(value: T)

  const BLOCK := 8

  function Sum(s: seq<byte>): nat {
    if s == [] then 0 else Sum(s[..|s| - 1]) + s[|s| - 1]
  }

  /** Counting from the front gives the same sum. */
  lemma {:induction false} SumFirst(b: byte, s: seq<byte>)
    ensures Sum([b] + s) == b + Sum(s) && Sum([]) == 0
  {
    var t := [b] + s;
    if s == [] {
      assert t[..0] == [];
    } else {
      SumFirst(b, s[..|s| - 1]);
      assert t[..|t| - 1] == [b] + s[..|s| - 1];
    }
  }

  /** The byte that brings a run of bytes to a multiple of 256. */
  function CalculateChecksum(s: seq<byte>): byte {
    (256 - Sum(s) % 256) % 256
  }

  lemma ChecksumZeroesTheSum(s: seq<byte>)
    ensures Sum(s + [CalculateChecksum(s)]) % 256 == 0
  {
    var c := CalculateChecksum(s);
    assert (s + [c])[..|s|] == s;
    assert Sum(s + [c]) == Sum(s) + c;
    var q, m := Sum(s) / 256, Sum(s) % 256;
    assert Sum(s) + c == 256 * (if m == 0 then q else q + 1);
  }

  /** The checksum is the only byte that does so. */
  lemma ChecksumIsUnique(s: seq<byte>, c: byte)
    requires Sum(s + [c]) % 256 == 0
    ensures c == CalculateChecksum(s)
  {
    assert (s + [c])[..|s|] == s;
  }

  lemma Assoc(a: seq<byte>, b: seq<byte>, c: seq<byte>)
    ensures (a + b) + c == a + (b + c)
  {
  }

  /** `vector::resize(n, 0)`. */
  function Resize(s: seq<byte>, n: nat): (r: seq<byte>)
    ensures |r| == n
    ensures forall i :: 0 <= i < n && i < |s| ==> r[i] == s[i]
  {
    if n <= |s| then s[..n] else s + seq(n - |s|, _ => 0)
  }

  lemma ResizeZero(s: seq<byte>, n: nat)
    requires |s| < n
    ensures Resize(s + [0], n) == Resize(s, n)
  {
  }
}
