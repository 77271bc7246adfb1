/** File digests: one shot for small files, chunk by chunk for large ones. */
module Hash {
  import opened Streams

  const MIB: nat := 1048576

  /** An append-and-finalise hash such as MD5's init, update and final calls. */
  datatype Md5<!C> = Md5(init: C, update: (C, seq<Byte>) -> C, final: C -> string)

  /** Feeding data in pieces is feeding it at once. */
  ghost predicate Appends<C(!new)>(h: Md5<C>) {
    && (forall c :: h.update(c, []) == c)
    && (forall c, a, b :: h.update(h.update(c, a), b) == h.update(c, a + b))
  }

  function OneShot<C>(h: Md5<C>, data: seq<Byte>): string {
    h.final(h.update(h.init, data))
  }

  method CalculateSmallFileHash<C>(h: Md5<C>, content: seq<Byte>) returns (digest: string)
    ensures digest == OneShot(h, content)
  {
    digest := h.final(h.update(h.init, content));
  }

  /** The longest prefix made of whole MiB. */
  function WholeMib(content: seq<Byte>): seq<Byte> {
    content[..|content| / MIB * MIB]
  }

  /** The loop ends with the first read that is not full, and the bytes of that read are not fed to the hash. */
  method CalculateLargeFileHash<C(!new)>(h: Md5<C>, content: seq<Byte>) returns (digest: string)
    requires Appends(h)
    ensures digest == OneShot(h, WholeMib(content))
  {
    var stream := new InputStream.Open(content);
    var context := h.init;
    var buffer := stream.Read(MIB);
    ghost var n := 0;
    while !stream.failed
      invariant fresh(stream) && stream.content == content
      invariant n * MIB <= |content| && buffer == Available(content, n * MIB, MIB)
      invariant stream.failed == stream.eof == (|buffer| < MIB)
      invariant !stream.failed ==> stream.pos == (n + 1) * MIB
      invariant context == h.update(h.init, content[..n * MIB])
      decreases !stream.failed, |content| - n * MIB
    {
      assert content[..n * MIB] + buffer == content[..(n + 1) * MIB];
      context := h.update(context, buffer);
      n := n + 1;
      buffer := stream.Read(MIB);
    }
    assert n == |content| / MIB;
    digest := h.final(context);
  }

  method CalculateFileHash<C(!new)>(h: Md5<C>, content: seq<Byte>) returns (digest: string)
    requires Appends(h)
    ensures digest == FileDigest(h, content)
    ensures digest == if |content| < 10485760 then OneShot(h, content)
                      else OneShot(h, content[..|content| / 1048576 * 1048576])
  {
    if |content| < 10 * MIB {
      digest := CalculateSmallFileHash(h, content);
    } else {
      digest := CalculateLargeFileHash(h, content);
    }
  }

  function FileDigest<C>(h: Md5<C>, content: seq<Byte>): string {
    if |content| < 10 * MIB then OneShot(h, content) else OneShot(h, WholeMib(content))
  }

  /** No two byte strings have one digest. */
  ghost predicate CollisionFree<C>(h: Md5<C>) {
    forall a, b :: OneShot(h, a) == OneShot(h, b) ==> a == b
  }

  /** Even with a perfect hash, the file digest tells two large files apart exactly when their whole-MiB
      prefixes differ; damage in the last partial MiB goes unnoticed. It identifies a large file only when
      the size is a multiple of 1 MiB. */
  lemma LargeDigestSeesExactly<C>(h: Md5<C>, a: seq<Byte>, b: seq<Byte>)
    requires CollisionFree(h) && |a| >= 10 * MIB && |b| >= 10 * MIB
    ensures FileDigest(h, a) == FileDigest(h, b) <==> WholeMib(a) == WholeMib(b)
    ensures FileDigest(h, a) == OneShot(h, a) <==> |a| % MIB == 0
    ensures |a| % MIB == 0 && |b| % MIB == 0 && FileDigest(h, a) == FileDigest(h, b) ==> a == b
  {
    if |a| % MIB == 0 {
      assert WholeMib(a) == a;
    }
    if |b| % MIB == 0 {
      assert WholeMib(b) == b;
    }
  }
}
