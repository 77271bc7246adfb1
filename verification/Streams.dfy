/** The part of std::ifstream that the sender relies on: position, gcount, eofbit and failbit. */
module Streams {

  type Byte = x: int | 0 <= x < 256

  function Min(a: int, b: int): int { if a <= b then a else b }

  lemma ConcatAssociates<T>(x: seq<T>, y: seq<T>, z: seq<T>)
    ensures x + (y + z) == x + y + z
  {
  }

  /** The bytes a read of `n` bytes at `pos` finds in `content`. */
  function Available(content: seq<Byte>, pos: nat, n: nat): seq<Byte> {
    if pos >= |content| then [] else content[pos..Min(pos + n, |content|)]
  }

  class InputStream {
    const content: seq<Byte>
    var pos: nat
    var gcount: nat
    var eof: bool
    var failed: bool

    constructor Open(content: seq<Byte>)
      ensures this.content == content
      ensures AtStart()
    {
      this.content := content;
      pos, gcount, eof, failed := 0, 0, false, false;
    }

    predicate AtStart()
      reads this
    {
      pos == 0 && !eof && !failed
    }

    /** istream::read: a stream that is not good delivers nothing; a short read sets eofbit and failbit. */
    method Read(n: nat) returns (chunk: seq<Byte>)
      modifies this
      ensures old(eof || failed) ==> chunk == [] && failed && eof == old(eof) && pos == old(pos)
      ensures !old(eof || failed) ==>
                && chunk == Available(content, old(pos), n)
                && pos == old(pos) + |chunk|
                && eof == failed == (|chunk| < n)
      ensures gcount == |chunk|
    {
      if eof || failed {
        chunk, gcount, failed := [], 0, true;
        return;
      }
      chunk := Available(content, pos, n);
      pos, gcount := pos + |chunk|, |chunk|;
      eof := |chunk| < n;
      failed := eof;
    }

    /** istream::seekg since C++11: eofbit is cleared first, but a failed stream does not move. */
    method Seek(p: nat)
      modifies this
      ensures !eof && failed == old(failed) && gcount == old(gcount)
      ensures pos == if failed then old(pos) else p
    {
      eof := false;
      if !failed {
        pos := p;
      }
    }
  }
}
