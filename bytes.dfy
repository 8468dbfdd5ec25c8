/**
 * Byte sequences, and the three <string.h> routines the test programs call on
 * their buffers: memcpy, memset and memcmp.
 */
module Bytes {

  /** An unsigned 8-bit value, C's `u8`. */
  newtype byte = x: int | 0 <= x < 256

  /** `n` copies of the byte `v`. */
  function Fill(n: nat, v: byte): seq<byte>
  {
    seq(n, _ => v)
  }

  /** The bytes of `s` in the opposite order. */
  function Reverse(s: seq<byte>): (r: seq<byte>)
    ensures |r| == |s|
    ensures forall i :: 0 <= i < |s| ==> r[i] == s[|s| - 1 - i]
  {
    if s == [] then [] else Reverse(s[1..]) + [s[0]]
  }

  /** Reversing twice gives back the original order. */
  lemma {:induction false} ReverseReverse(s: seq<byte>)
    ensures Reverse(Reverse(s)) == s
  {
    var r := Reverse(Reverse(s));
    forall i | 0 <= i < |s|
      ensures r[i] == s[i]
    {
      assert r[i] == Reverse(s)[|s| - 1 - i];
    }
  }

  /** Any sequence that holds the bytes of `s` back to front is Reverse(s). */
  lemma ReverseByIndex(s: seq<byte>, r: seq<byte>)
    requires |r| == |s|
    requires forall i :: 0 <= i < |s| ==> r[i] == s[|s| - 1 - i]
    ensures r == Reverse(s)
  {
  }

  /**
   * memcmp over two ranges of the same length: zero exactly when the ranges
   * are equal, and otherwise negative or positive as the first differing byte
   * of `a` is smaller or larger than that of `b` (compared as unsigned char).
   */
  function MemCmp(a: seq<byte>, b: seq<byte>): (r: int)
    requires |a| == |b|
    ensures r == 0 <==> a == b
    ensures r != 0 ==>
      exists k :: 0 <= k < |a| && a[..k] == b[..k] && a[k] != b[k] && (r < 0 <==> a[k] < b[k])
  {
    if a == [] then 0
    else if a[0] != b[0] then a[0] as int - b[0] as int
    else
      var r := MemCmp(a[1..], b[1..]);
      assert a == [a[0]] + a[1..] && b == [b[0]] + b[1..];
      assert r != 0 ==> exists k :: 0 <= k < |a| && a[..k] == b[..k] && a[k] != b[k] && (r < 0 <==> a[k] < b[k]) by {
        if r != 0 {
          var k :| 0 <= k < |a| - 1 && a[1..][..k] == b[1..][..k] && a[1..][k] != b[1..][k] && (r < 0 <==> a[1..][k] < b[1..][k]);
          assert a[..k + 1] == [a[0]] + a[1..][..k];
          assert b[..k + 1] == [b[0]] + b[1..][..k];
        }
      }
      r
  }

  /** memcpy(&dst[off], src, |src|): the range is overwritten, the rest is untouched. */
  method MemCpy(dst: array<byte>, off: nat, src: seq<byte>)
    requires off + |src| <= dst.Length
    modifies dst
    ensures dst[off..off + |src|] == src
    ensures forall k :: 0 <= k < dst.Length && !(off <= k < off + |src|) ==> dst[k] == old(dst[k])
  {
    forall k | 0 <= k < |src| {
      dst[off + k] := src[k];
    }
  }

  /** memset(dst, v, n): the first `n` bytes become `v`, the rest is untouched. */
  method MemSet(dst: array<byte>, v: byte, n: nat)
    requires n <= dst.Length
    modifies dst
    ensures dst[..n] == Fill(n, v)
    ensures dst[n..] == old(dst[n..])
  {
    forall k | 0 <= k < n {
      dst[k] := v;
    }
  }
}
