/** How a file is cut into numbered packets of 1024 bytes. */
module Packets {
  import opened Streams

  const FILE_DATA_LEN: nat := 1024

  /** The file offset of packet `s`. */
  function Offset(s: nat): nat { s * FILE_DATA_LEN }

  /** The packet count announced by RequestUpload. */
  function TotalPackets(size: nat): nat {
    size / FILE_DATA_LEN + if size % FILE_DATA_LEN != 0 then 1 else 0
  }

  /** Packet `s` of `file`: 1024 bytes, or fewer for the last one. */
  function Block(file: seq<Byte>, s: nat): seq<Byte> {
    Available(file, Offset(s), FILE_DATA_LEN)
  }

  /** The bytes of the first `n` packets. */
  function Prefix(file: seq<Byte>, n: nat): seq<Byte> {
    file[..Min(Offset(n), |file|)]
  }

  predicate Short(file: seq<Byte>, s: nat) {
    |Block(file, s)| < FILE_DATA_LEN
  }

  /** The count is the rounded-up quotient: the packets cover the file and none is empty. */
  lemma TotalPacketsIsCeiling(size: nat, n: nat)
    ensures n == TotalPackets(size) <==> (n == 0 && size == 0) || (n > 0 && Offset(n - 1) < size <= Offset(n))
  {
  }

  lemma BlockBounds(file: seq<Byte>, s: nat)
    ensures s < TotalPackets(|file|) ==> 0 < |Block(file, s)| <= FILE_DATA_LEN
    ensures s + 1 < TotalPackets(|file|) ==> |Block(file, s)| == FILE_DATA_LEN
    ensures s >= TotalPackets(|file|) ==> Block(file, s) == []
    ensures s < TotalPackets(|file|) && Short(file, s) ==> s == TotalPackets(|file|) - 1 && |file| % FILE_DATA_LEN != 0
  {
  }

  lemma PrefixExtend(file: seq<Byte>, n: nat)
    ensures Prefix(file, n) + Block(file, n) == Prefix(file, n + 1)
  {
  }

  lemma PrefixAll(file: seq<Byte>, n: nat)
    requires n >= TotalPackets(|file|)
    ensures Prefix(file, n) == file
  {
  }

  function Concat(parts: seq<seq<Byte>>): seq<Byte> {
    if parts == [] then [] else Concat(parts[..|parts| - 1]) + parts[|parts| - 1]
  }

  /** Cutting and gluing: the packets of a file, in order, concatenate to the file. */
  lemma {:induction false} BlocksConcatenate(file: seq<Byte>, n: nat)
    ensures Concat(seq(n, i requires 0 <= i < n => Block(file, i))) == Prefix(file, n)
    ensures n == TotalPackets(|file|) ==> Concat(seq(n, i requires 0 <= i < n => Block(file, i))) == file
  {
    var parts := seq(n, i requires 0 <= i < n => Block(file, i));
    if n > 0 {
      BlocksConcatenate(file, n - 1);
      assert parts[..n - 1] == seq(n - 1, i requires 0 <= i < n - 1 => Block(file, i));
      PrefixExtend(file, n - 1);
    }
    if n == TotalPackets(|file|) {
      PrefixAll(file, n);
    }
  }
}
