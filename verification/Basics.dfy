/** Small shared vocabulary: options, bytes, and the behaviour of a plain
    random-access file (seek and write_all, set_len, read). */
module Basics {
  datatype Option<+T> = None | Some(value: T)

  newtype byte = x: int | 0 <= x < 0x100

  const U64_MAX: nat := 0xFFFF_FFFF_FFFF_FFFF

  function Min(a: int, b: int): int {
    if a <= b then a else b
  }

  function Max(a: int, b: int): int {
    if a <= b then b else a
  }

  function Positions(lo: nat, hi: nat): (r: set<nat>)
    ensures forall i :: i in r <==> lo <= i < hi
  {
    if lo >= hi then {} else Positions(lo, hi - 1) + {hi - 1}
  }

  function Zeros(n: nat): seq<byte> {
    seq(n, _ => 0 as byte)
  }

  /** Seek to `offset`, then write all of `data`: a gap past the end reads as
      zeros, and writing nothing changes nothing, not even the length. */
  function WriteFile(file: seq<byte>, offset: nat, data: seq<byte>): seq<byte> {
    if data == [] then
      file
    else
      var padded := if |file| < offset then file + Zeros(offset - |file|) else file;
      padded[..offset] + data + padded[Min(|padded|, offset + |data|)..]
  }

  /** Truncate, or extend with zeros. */
  function SetLen(file: seq<byte>, n: nat): seq<byte> {
    if n <= |file| then file[..n] else file + Zeros(n - |file|)
  }

  /** What a read of `len` bytes at `offset` returns. */
  function Slice(file: seq<byte>, offset: nat, len: nat): seq<byte> {
    if offset >= |file| then [] else file[offset..Min(|file|, offset + len)]
  }

  /** The first `n` bytes of a file, or all of it. */
  function Clip(file: seq<byte>, n: nat): seq<byte> {
    file[..Min(|file|, n)]
  }

  lemma SliceOfClip(file: seq<byte>, n: nat, offset: nat, len: nat)
    ensures offset < n ==> Slice(file, offset, Min(len, n - offset)) == Slice(Clip(file, n), offset, len)
    ensures offset >= n ==> Slice(Clip(file, n), offset, len) == []
  {
  }

  lemma Glue<T>(s: seq<T>, a: nat, b: nat, c: nat)
    requires a <= b <= c <= |s|
    ensures s[a..b] + s[b..c] == s[a..c]
  {
  }

  lemma SubOfSub<T>(s: seq<T>, a: nat, b: nat, i: nat, j: nat)
    requires a <= b <= |s| && i <= j <= b - a
    ensures s[a..b][i..j] == s[a + i..a + j]
  {
    var inner, outer := s[a..b][i..j], s[a + i..a + j];
    assert |inner| == |outer| && forall k | 0 <= k < |inner| :: inner[k] == outer[k];
  }

  /** What a read in the first `size` bytes returns begins the slice. */
  lemma ReadIsPrefix(file: seq<byte>, size: nat, offset: nat, n: nat, len: nat)
    requires 0 < n <= len && offset + n <= Min(|file|, size)
    ensures file[offset..offset + n] == Clip(file, size)[offset..offset + n]
    ensures file[offset..offset + n] <= Slice(Clip(file, size), offset, len)
  {
    var body := Clip(file, size);
    SubOfSub(file, 0, Min(|file|, size), offset, offset + n);
    SubOfSub(body, offset, Min(|body|, offset + len), 0, n);
  }

  /** Writing is byte-wise: inside the written range the new data, elsewhere
      what was there before, and zeros in a gap. */
  lemma WriteFileAt(file: seq<byte>, offset: nat, data: seq<byte>, i: nat)
    requires data != []
    ensures |WriteFile(file, offset, data)| == Max(|file|, offset + |data|)
    ensures i < Max(|file|, offset + |data|) ==>
              WriteFile(file, offset, data)[i] ==
              if offset <= i < offset + |data| then data[i - offset]
              else if i < |file| then file[i]
              else 0
  {
  }

  /** Downloading a file over a prefix of itself leaves exactly that file. */
  lemma OverwritePrefix(file: seq<byte>, content: seq<byte>)
    requires file <= content
    ensures WriteFile(file, 0, content) == content
  {
  }

  /** And part of it a beginning. */
  lemma OverwriteStaysPrefix(file: seq<byte>, content: seq<byte>, got: nat)
    requires file <= content && got <= |content|
    ensures WriteFile(file, 0, content[..got]) <= content
  {
    if got > 0 {
      var after := WriteFile(file, 0, content[..got]);
      forall i | 0 <= i < |after|
        ensures i < |content| && after[i] == content[i]
      {
        WriteFileAt(file, 0, content[..got], i);
      }
    }
  }
}
