/** Bytes in memory. */
module Bytes {
  type Byte = b: int | 0 <= b < 256

  /** The bytes of `s` with `d` laid over them from position `at`. */
  function Patch(s: seq<Byte>, at: nat, d: seq<Byte>): (r: seq<Byte>)
    requires at + |d| <= |s|
    ensures |r| == |s|
  {
    s[..at] + d + s[at + |d|..]
  }

  /** Laying down two adjoining pieces is laying down both at once. */
  lemma PatchTwice(m: seq<Byte>, at: nat, x: seq<Byte>, y: seq<Byte>)
    requires at + |x| + |y| <= |m|
    ensures Patch(Patch(m, at, x), at + |x|, y) == Patch(m, at, x + y)
  {
  }

  /** Before, behind and at the bytes laid down. */
  lemma PatchBefore(m: seq<Byte>, at: nat, d: seq<Byte>, i: nat, j: nat)
    requires at + |d| <= |m| && i <= j <= at
    ensures Patch(m, at, d)[i..j] == m[i..j]
  {
  }

  lemma PatchBehind(m: seq<Byte>, at: nat, d: seq<Byte>, i: nat, j: nat)
    requires at + |d| <= i <= j <= |m|
    ensures Patch(m, at, d)[i..j] == m[i..j]
  {
  }

  lemma PatchAt(m: seq<Byte>, at: nat, d: seq<Byte>)
    requires at + |d| <= |m|
    ensures Patch(m, at, d)[at..at + |d|] == d
  {
  }

  lemma JoinSlices(m: seq<Byte>, i: nat, j: nat, k: nat)
    requires i <= j <= k <= |m|
    ensures m[i..k] == m[i..j] + m[j..k]
  {
  }
}
