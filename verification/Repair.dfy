/** The hash phase: block codes, resending damaged blocks of ten packets, and rewriting them in place. */
module Repair {
  import opened Streams
  import opened Packets

  const HASH_VERIFY_BLOCK: nat := FILE_DATA_LEN * 10

  datatype RepairMsg = VerifyCode(block: nat, data: seq<Byte>) | ReTranDamagedHash(seqNo: nat, data: seq<Byte>)

  // ----- block codes -----

  /** The bytes of hash block `b`. */
  function HashBlock(file: seq<Byte>, b: nat): seq<Byte> {
    Available(file, b * HASH_VERIFY_BLOCK, HASH_VERIFY_BLOCK)
  }

  function Codes(file: seq<Byte>, n: nat): seq<RepairMsg> {
    seq(n, b requires 0 <= b < n => VerifyCode(b, HashBlock(file, b)))
  }

  /** How many codes the sender produces: the number of non-empty blocks. */
  function CodesSent(size: nat): nat {
    size / HASH_VERIFY_BLOCK + if size % HASH_VERIFY_BLOCK != 0 then 1 else 0
  }

  /** How many codes VerifyHash consumes before it answers. */
  function CodesAwaited(totalPackets: nat): nat {
    totalPackets / 10 + 1
  }

  /** SendVerifyCode, with the data a code is computed from in place of the code: the codes are numbered from 0, and
      code `b` is over packets 10 * b to 10 * b + 9, as far as the file goes. */
  method SendVerifyCode(content: seq<Byte>) returns (sent: seq<RepairMsg>)
    ensures sent == Codes(content, CodesSent(|content|))
    ensures forall b :: 0 <= b < |sent| ==>
              && sent[b].VerifyCode? && sent[b].block == b && 10240 * b < |content|
              && sent[b].data == content[10240 * b..Min(10240 * b + 10240, |content|)]
    ensures 10240 * |sent| >= |content|
  {
    var stream := new InputStream.Open(content);
    sent := [];
    var seqNo, total := 0, 0;
    var buffer := stream.Read(HASH_VERIFY_BLOCK);
    while !stream.failed
      invariant fresh(stream) && stream.content == content
      invariant buffer == HashBlock(content, seqNo) && stream.gcount == |buffer|
      invariant stream.failed == stream.eof == (|buffer| < HASH_VERIFY_BLOCK)
      invariant !stream.failed ==> stream.pos == (seqNo + 1) * HASH_VERIFY_BLOCK
      invariant total == seqNo * HASH_VERIFY_BLOCK <= |content|
      invariant sent == Codes(content, seqNo)
      decreases !stream.failed, |content| - total
    {
      total := total + stream.gcount;
      sent := sent + [VerifyCode(seqNo, buffer)];
      seqNo := seqNo + 1;
      assert sent == Codes(content, seqNo);
      buffer := stream.Read(HASH_VERIFY_BLOCK);
    }
    if stream.eof && total < |content| && stream.gcount > 0 {
      sent := sent + [VerifyCode(seqNo, buffer)];
      assert sent == Codes(content, seqNo + 1);
    }
  }

  function CodeData(codes: seq<RepairMsg>): seq<seq<Byte>>
    requires forall b :: 0 <= b < |codes| ==> codes[b].VerifyCode?
  {
    seq(|codes|, b requires 0 <= b < |codes| => codes[b].data)
  }

  /** The data of the codes, in order, concatenate to the file. */
  lemma {:induction false} CodesConcatenate(file: seq<Byte>, n: nat)
    ensures Concat(CodeData(Codes(file, n))) == file[..Min(10240 * n, |file|)]
    ensures n == CodesSent(|file|) ==> Concat(CodeData(Codes(file, n))) == file
  {
    if n > 0 {
      CodesConcatenate(file, n - 1);
      assert CodeData(Codes(file, n))[..n - 1] == CodeData(Codes(file, n - 1));
      OneMoreCode(file, n);
    }
  }

  lemma OneMoreCode(file: seq<Byte>, n: nat)
    requires n > 0
    ensures file[..Min(10240 * (n - 1), |file|)] + HashBlock(file, n - 1) == file[..Min(10240 * n, |file|)]
  {
  }

  /** Packet `s` is the packet number s % 10 of the code with number s / 10. */
  lemma PacketInCode(file: seq<Byte>, s: nat)
    requires s < TotalPackets(|file|)
    ensures var codes := Codes(file, CodesSent(|file|));
            && s / 10 < |codes| && codes[s / 10].block == s / 10
            && Available(codes[s / 10].data, s % 10 * 1024, 1024) == Block(file, s)
  {
    var b, i := s / 10, s % 10;
    var data, end := HashBlock(file, b), Min(1024 * i + 1024, |file| - 10240 * b);
    assert 10240 * b + 1024 * i == Offset(s) < |file|;
    SliceOfSlice(file, 10240 * b, 10240 * b + |data|, 1024 * i, end);
  }

  lemma SliceOfSlice<T>(s: seq<T>, a: nat, e: nat, p: nat, q: nat)
    requires a <= e <= |s| && p <= q <= e - a
    ensures s[a..e][p..q] == s[a + p..a + q]
  {
    var part := s[a..e][p..q];
    forall x | 0 <= x < q - p
      ensures part[x] == s[a + p..a + q][x]
    {
      assert part[x] == s[a..e][p + x] == s[a + p + x];
    }
  }

  /** Both ends count the same number of codes exactly when the packet count is no multiple of ten; otherwise the
      receiver awaits one more code than is ever sent. */
  lemma CodeCountsAgreeExactly(size: nat)
    requires size > 0
    ensures CodesSent(size) == CodesAwaited(TotalPackets(size)) <==> TotalPackets(size) % 10 != 0
    ensures TotalPackets(size) % 10 == 0 ==> CodesAwaited(TotalPackets(size)) == CodesSent(size) + 1
  {
  }

  // ----- resending damaged blocks -----

  /** Packet `k` of the resend order: block k / 10 of the list, packet k % 10 of that block. */
  function Resent(damaged: seq<nat>, k: nat): nat
    requires k < 10 * |damaged|
  {
    damaged[k / 10] * 10 + k % 10
  }

  /** One of the first `k` reads was short. */
  ghost predicate Spoilt(file: seq<Byte>, damaged: seq<nat>, k: nat)
    requires k <= 10 * |damaged|
  {
    exists j :: 0 <= j < k && Short(file, Resent(damaged, j))
  }

  /** The resend throws at its k-th packet: it lies behind the file, or an earlier read was short. */
  ghost predicate ResendStops(file: seq<Byte>, damaged: seq<nat>, k: nat)
    requires k < 10 * |damaged|
  {
    Resent(damaged, k) >= TotalPackets(|file|) || Spoilt(file, damaged, k)
  }

  /** The first `n` packets are resent. */
  ghost predicate ResendsReach(file: seq<Byte>, damaged: seq<nat>, n: nat) {
    n <= 10 * |damaged| && forall k :: 0 <= k < n ==> !ResendStops(file, damaged, k)
  }

  function Resends(file: seq<Byte>, damaged: seq<nat>, n: nat): seq<RepairMsg>
    requires n <= 10 * |damaged|
  {
    seq(n, k requires 0 <= k < n => ReTranDamagedHash(Resent(damaged, k), Block(file, Resent(damaged, k))))
  }

  lemma OneMoreResend(file: seq<Byte>, damaged: seq<nat>, k: nat)
    requires ResendsReach(file, damaged, k) && k < 10 * |damaged|
    ensures Spoilt(file, damaged, k + 1) <==> Spoilt(file, damaged, k) || Short(file, Resent(damaged, k))
    ensures ResendsReach(file, damaged, k + 1) <==> !ResendStops(file, damaged, k)
    ensures Resends(file, damaged, k + 1) ==
            Resends(file, damaged, k) + [ReTranDamagedHash(Resent(damaged, k), Block(file, Resent(damaged, k)))]
  {
  }

  /** When the resend gets through, by numbers and sizes alone: every listed block has ten packets in the file, and only
      the last one listed may end with a short packet. */
  lemma ResendsExactly(file: seq<Byte>, damaged: seq<nat>)
    ensures ResendsReach(file, damaged, 10 * |damaged|) <==>
              forall i :: 0 <= i < |damaged| ==>
                            && 10240 * damaged[i] + 9216 < |file|
                            && (i < |damaged| - 1 ==> 10240 * damaged[i] + 10240 <= |file|)
  {
    if ResendsReach(file, damaged, 10 * |damaged|) {
      forall i | 0 <= i < |damaged|
        ensures 10240 * damaged[i] + 9216 < |file|
        ensures i < |damaged| - 1 ==> 10240 * damaged[i] + 10240 <= |file|
      {
        ReachedBlock(file, damaged, i);
      }
    } else {
      var k :| 0 <= k < 10 * |damaged| && ResendStops(file, damaged, k);
      StoppedBlock(file, damaged, k);
    }
  }

  lemma ReachedBlock(file: seq<Byte>, damaged: seq<nat>, i: nat)
    requires ResendsReach(file, damaged, 10 * |damaged|) && i < |damaged|
    ensures 10240 * damaged[i] + 9216 < |file|
    ensures i < |damaged| - 1 ==> 10240 * damaged[i] + 10240 <= |file|
  {
    var k := 10 * i + 9;
    assert Resent(damaged, k) == 10 * damaged[i] + 9;
    assert !ResendStops(file, damaged, k);
    if i < |damaged| - 1 {
      assert !ResendStops(file, damaged, k + 1);
      assert !Short(file, Resent(damaged, k));
    }
  }

  lemma StoppedBlock(file: seq<Byte>, damaged: seq<nat>, k: nat)
    requires k < 10 * |damaged| && ResendStops(file, damaged, k)
    ensures exists i :: && 0 <= i < |damaged|
                        && (10240 * damaged[i] + 9216 >= |file|
                            || (i < |damaged| - 1 && 10240 * damaged[i] + 10240 > |file|))
  {
    if Resent(damaged, k) >= TotalPackets(|file|) {
      assert 10240 * damaged[k / 10] + 9216 >= |file|;
    } else {
      var j :| 0 <= j < k && Short(file, Resent(damaged, j));
      assert j % 10 < 9 ==> 10240 * damaged[j / 10] + 9216 >= |file|;
      assert j % 10 == 9 ==> 10240 * damaged[j / 10] + 10240 > |file| && j / 10 < k / 10;
      assert 10240 * damaged[j / 10] + 9216 >= |file|
             || (j / 10 < |damaged| - 1 && 10240 * damaged[j / 10] + 10240 > |file|);
    }
  }

  lemma EmptyExactly(file: seq<Byte>, s: nat)
    ensures Block(file, s) == [] <==> s >= TotalPackets(|file|)
  {
  }

  /** SendDamagedHashBlock: seek to each listed block and read ten packets. `ok` is false when the encoder throws
      on an empty read. */
  method SendDamagedHashBlock(content: seq<Byte>, damaged: seq<nat>) returns (sent: seq<RepairMsg>, ok: bool)
    ensures ResendsReach(content, damaged, |sent|) && sent == Resends(content, damaged, |sent|)
    ensures if ok then |sent| == 10 * |damaged|
            else |sent| < 10 * |damaged| && ResendStops(content, damaged, |sent|)
  {
    var stream := new InputStream.Open(content);
    sent := [];
    var total: nat := 0;
    var n := 0;
    while n < |damaged|
      invariant n <= |damaged| && |sent| == 10 * n
      invariant fresh(stream) && stream.content == content
      invariant ResendsReach(content, damaged, |sent|) && sent == Resends(content, damaged, |sent|)
      invariant stream.failed == Spoilt(content, damaged, |sent|)
    {
      stream.Seek(damaged[n] * HASH_VERIFY_BLOCK);
      var seqNow := damaged[n] * 10;
      for i := 0 to 10
        invariant |sent| == 10 * n + i && seqNow == damaged[n] * 10 + i
        invariant i > 1 || (i == 1 && !stream.failed) ==> total >= FILE_DATA_LEN
        invariant fresh(stream) && stream.content == content
        invariant !stream.failed ==> !stream.eof && stream.pos == Offset(seqNow)
        invariant ResendsReach(content, damaged, |sent|) && sent == Resends(content, damaged, |sent|)
        invariant stream.failed == Spoilt(content, damaged, |sent|)
      {
        assert Resent(damaged, |sent|) == seqNow;
        OneMoreResend(content, damaged, |sent|);
        EmptyExactly(content, seqNow);
        var buffer := stream.Read(FILE_DATA_LEN);
        if buffer == [] {
          return sent, false;
        }
        sent := sent + [ReTranDamagedHash(seqNow, buffer)];
        total := total + |buffer|;
        seqNow := seqNow + 1;
      }
      // The source would send an extra tail packet here if fewer than FILE_DATA_LEN bytes had been sent.
      assert total >= FILE_DATA_LEN;
      n := n + 1;
    }
    return sent, true;
  }

  // ----- rewriting in place -----

  /** seekp and write on a file opened for update: bytes are replaced, a gap behind the end is zero-filled. */
  function WriteAt(saved: seq<Byte>, pos: nat, data: seq<Byte>): seq<Byte> {
    var base := if pos > |saved| then saved + seq(pos - |saved|, _ => 0 as Byte) else saved;
    base[..pos] + data + if pos + |data| < |base| then base[pos + |data|..] else []
  }

  function Rewritten(saved: seq<Byte>, msgs: seq<RepairMsg>): seq<Byte>
    requires forall i :: 0 <= i < |msgs| ==> msgs[i].ReTranDamagedHash?
  {
    if msgs == [] then saved
    else
      var m := msgs[|msgs| - 1];
      WriteAt(Rewritten(saved, msgs[..|msgs| - 1]), Offset(m.seqNo), m.data)
  }

  class Rewriter {
    const fileHash: string
    const digest: seq<Byte> -> string
    var savedFile: seq<Byte>
    var rewriteIndex: nat
    var hashDatas: seq<RepairMsg>
    var hashCodes: seq<string>
    var nextVerifying: nat
    var damagedBlocks: seq<nat>

    constructor (savedFile: seq<Byte>, hashDatas: seq<RepairMsg>, fileHash: string, digest: seq<Byte> -> string)
      ensures this.savedFile == savedFile && this.hashDatas == hashDatas && rewriteIndex == 0
      ensures this.fileHash == fileHash && this.digest == digest
    {
      this.savedFile, this.hashDatas, rewriteIndex := savedFile, hashDatas, 0;
      this.fileHash, this.digest := fileHash, digest;
      hashCodes, nextVerifying, damagedBlocks := [], 0, [];
    }

    /** ReWriteCausedByHash over the packets collected so far, to its answer: FileComplete, or RequestVerify with
        the state of the hash phase reset. */
    method ReWriteCausedByHash() returns (complete: bool)
      requires rewriteIndex == 0 && forall i :: 0 <= i < |hashDatas| ==> hashDatas[i].ReTranDamagedHash?
      modifies this
      ensures savedFile == Rewritten(old(savedFile), old(hashDatas))
      ensures complete == (digest(savedFile) == fileHash)
      ensures complete ==> hashDatas == old(hashDatas) && rewriteIndex == |hashDatas| && hashCodes == old(hashCodes)
                           && nextVerifying == old(nextVerifying) && damagedBlocks == old(damagedBlocks)
      ensures !complete ==> hashDatas == [] && rewriteIndex == 0 && hashCodes == []
                            && nextVerifying == 0 && damagedBlocks == []
    {
      while rewriteIndex < |hashDatas|
        invariant rewriteIndex <= |hashDatas| && hashDatas == old(hashDatas)
        invariant savedFile == Rewritten(old(savedFile), hashDatas[..rewriteIndex])
        invariant hashCodes == old(hashCodes) && nextVerifying == old(nextVerifying)
        invariant damagedBlocks == old(damagedBlocks)
      {
        var m := hashDatas[rewriteIndex];
        assert hashDatas[..rewriteIndex + 1][..rewriteIndex] == hashDatas[..rewriteIndex];
        savedFile := WriteAt(savedFile, Offset(m.seqNo), m.data);
        rewriteIndex := rewriteIndex + 1;
      }
      assert hashDatas[..rewriteIndex] == hashDatas;
      complete := digest(savedFile) == fileHash;
      if !complete {
        hashCodes, nextVerifying, damagedBlocks := [], 0, [];
        hashDatas, rewriteIndex := [], 0;
      }
    }
  }

  ghost predicate HonestRepairs(file: seq<Byte>, msgs: seq<RepairMsg>) {
    forall i :: 0 <= i < |msgs| ==>
      && msgs[i].ReTranDamagedHash? && msgs[i].seqNo < TotalPackets(|file|)
      && msgs[i].data == Block(file, msgs[i].seqNo)
  }

  ghost predicate Covers(msgs: seq<RepairMsg>, s: nat) {
    exists i :: 0 <= i < |msgs| && msgs[i].ReTranDamagedHash? && msgs[i].seqNo == s
  }

  /** One honest rewrite puts packet `s` right and touches no other packet. */
  lemma WriteBlock(file: seq<Byte>, saved: seq<Byte>, s: nat, t: nat)
    requires |saved| == |file| && s < TotalPackets(|file|) && t < TotalPackets(|file|)
    ensures var w := WriteAt(saved, Offset(s), Block(file, s));
            |w| == |file| && Block(w, t) == if t == s then Block(file, s) else Block(saved, t)
  {
    var w, at, data := WriteAt(saved, Offset(s), Block(file, s)), Offset(s), Block(file, s);
    assert w == saved[..at] + data + saved[at + |data|..];
    if t < s {
      assert w[..at] == saved[..at];
      assert Block(w, t) == w[..at][Offset(t)..Offset(t + 1)];
    } else if t == s {
      assert w[at..at + |data|] == data;
    } else {
      assert w[at + |data|..] == saved[at + |data|..];
      assert |data| == FILE_DATA_LEN;
      var skip := Offset(t - s - 1);
      assert Block(w, t) == Available(w[at + FILE_DATA_LEN..], skip, FILE_DATA_LEN);
      assert Block(saved, t) == Available(saved[at + FILE_DATA_LEN..], skip, FILE_DATA_LEN);
    }
  }

  lemma {:induction false} RewrittenLength(file: seq<Byte>, saved: seq<Byte>, msgs: seq<RepairMsg>)
    requires |saved| == |file| && HonestRepairs(file, msgs)
    ensures |Rewritten(saved, msgs)| == |file|
    decreases |msgs|
  {
    if msgs != [] {
      var init, m := msgs[..|msgs| - 1], msgs[|msgs| - 1];
      RewrittenLength(file, saved, init);
      WriteBlock(file, Rewritten(saved, init), m.seqNo, m.seqNo);
    }
  }

  lemma {:induction false} RewrittenBlocks(file: seq<Byte>, saved: seq<Byte>, msgs: seq<RepairMsg>, t: nat)
    requires |saved| == |file| && HonestRepairs(file, msgs) && t < TotalPackets(|file|)
    ensures Block(Rewritten(saved, msgs), t) == if Covers(msgs, t) then Block(file, t) else Block(saved, t)
    decreases |msgs|
  {
    if msgs != [] {
      var init, m := msgs[..|msgs| - 1], msgs[|msgs| - 1];
      RewrittenLength(file, saved, init);
      RewrittenBlocks(file, saved, init, t);
      WriteBlock(file, Rewritten(saved, init), m.seqNo, t);
      CoversInit(msgs, t);
    }
  }

  lemma CoversInit(msgs: seq<RepairMsg>, t: nat)
    requires msgs != [] && msgs[|msgs| - 1].ReTranDamagedHash?
    ensures Covers(msgs, t) <==> Covers(msgs[..|msgs| - 1], t) || msgs[|msgs| - 1].seqNo == t
  {
  }

  /** Files of one length are equal if all their packets are. */
  lemma {:induction false} PrefixesEqual(a: seq<Byte>, b: seq<Byte>, n: nat)
    requires |a| == |b| && forall s :: 0 <= s < n ==> Block(a, s) == Block(b, s)
    ensures Prefix(a, n) == Prefix(b, n)
  {
    if n > 0 {
      PrefixesEqual(a, b, n - 1);
      PrefixExtend(a, n - 1);
      PrefixExtend(b, n - 1);
    }
  }

  /** For saved files of the right length: rewritten packets equal the source, all others keep their bytes, and the
      saved file becomes the source if and only if every packet that differed was rewritten. */
  lemma SameLengthRepair(file: seq<Byte>, saved: seq<Byte>, msgs: seq<RepairMsg>)
    requires |saved| == |file| && HonestRepairs(file, msgs)
    ensures forall s :: 0 <= s < TotalPackets(|file|) ==>
              Block(Rewritten(saved, msgs), s) == if Covers(msgs, s) then Block(file, s) else Block(saved, s)
    ensures Rewritten(saved, msgs) == file <==>
              forall s :: 0 <= s < TotalPackets(|file|) && Block(saved, s) != Block(file, s) ==> Covers(msgs, s)
  {
    var w, total := Rewritten(saved, msgs), TotalPackets(|file|);
    forall s | 0 <= s < total
      ensures Block(w, s) == if Covers(msgs, s) then Block(file, s) else Block(saved, s)
    {
      RewrittenBlocks(file, saved, msgs, s);
    }
    RewrittenLength(file, saved, msgs);
    if forall s :: 0 <= s < total && Block(saved, s) != Block(file, s) ==> Covers(msgs, s) {
      PrefixesEqual(w, file, total);
      PrefixAll(w, total);
      PrefixAll(file, total);
    }
  }

  /** The saved file filled up with zeros to `n` bytes. */
  function Padded(saved: seq<Byte>, n: nat): seq<Byte> {
    if |saved| < n then saved + seq(n - |saved|, _ => 0 as Byte) else saved
  }

  /** Filling up first or last makes no difference. */
  lemma WritePadded(file: seq<Byte>, u: seq<Byte>, s: nat)
    requires |u| <= |file| && s < TotalPackets(|file|)
    ensures var w := WriteAt(u, Offset(s), Block(file, s));
            && |u| <= |w| <= |file| && (|w| == |file| <==> |u| == |file| || s == TotalPackets(|file|) - 1)
            && Padded(w, |file|) == WriteAt(Padded(u, |file|), Offset(s), Block(file, s))
  {
    BlockBounds(file, s);
    var w, at, data := WriteAt(u, Offset(s), Block(file, s)), Offset(s), Block(file, s);
    assert at + |data| <= |file|;
    var p, q := Padded(w, |file|), WriteAt(Padded(u, |file|), at, data);
    assert |p| == |file| == |q|;
    assert forall x :: 0 <= x < |file| ==> p[x] == q[x];
  }

  lemma {:induction false} RewrittenPadded(file: seq<Byte>, saved: seq<Byte>, msgs: seq<RepairMsg>)
    requires |saved| <= |file| && HonestRepairs(file, msgs)
    ensures var w, total := Rewritten(saved, msgs), TotalPackets(|file|);
            && |w| <= |file| && (|w| == |file| <==> |saved| == |file| || (total > 0 && Covers(msgs, total - 1)))
            && Padded(w, |file|) == Rewritten(Padded(saved, |file|), msgs)
    decreases |msgs|
  {
    if msgs != [] {
      var init, m := msgs[..|msgs| - 1], msgs[|msgs| - 1];
      RewrittenPadded(file, saved, init);
      WritePadded(file, Rewritten(saved, init), m.seqNo);
      CoversInit(msgs, TotalPackets(|file|) - 1);
    }
  }

  lemma {:induction false} RewrittenTooLong(file: seq<Byte>, saved: seq<Byte>, msgs: seq<RepairMsg>)
    requires |saved| > |file| && HonestRepairs(file, msgs)
    ensures |Rewritten(saved, msgs)| == |saved|
    decreases |msgs|
  {
    if msgs != [] {
      var m := msgs[|msgs| - 1];
      RewrittenTooLong(file, saved, msgs[..|msgs| - 1]);
      BlockBounds(file, m.seqNo);
    }
  }

  /** What a packet of the file is compared with: the saved bytes, zeros where the saved file ends too early. */
  function SavedBlock(file: seq<Byte>, saved: seq<Byte>, s: nat): seq<Byte> {
    Block(Padded(saved, |file|), s)
  }

  /** Positional repair, exactly and for saved files of any length. As long as the saved file is no longer than the
      source, rewritten packets equal the source and all others keep their bytes, up to zeros that fill a gap. The
      saved file becomes the source if and only if it was not too long, it had the right length or the last packet was
      rewritten, and every packet that differed was rewritten. */
  lemma RepairExactly(file: seq<Byte>, saved: seq<Byte>, msgs: seq<RepairMsg>)
    requires HonestRepairs(file, msgs)
    ensures |saved| <= |file| ==> forall s :: 0 <= s < TotalPackets(|file|) ==>
              SavedBlock(file, Rewritten(saved, msgs), s) ==
              if Covers(msgs, s) then Block(file, s) else SavedBlock(file, saved, s)
    ensures var total := TotalPackets(|file|);
            Rewritten(saved, msgs) == file <==>
              && |saved| <= |file| && (|saved| == |file| || Covers(msgs, total - 1))
              && forall s :: 0 <= s < total && SavedBlock(file, saved, s) != Block(file, s) ==> Covers(msgs, s)
  {
    if |saved| <= |file| {
      RewrittenPadded(file, saved, msgs);
      SameLengthRepair(file, Padded(saved, |file|), msgs);
    } else {
      RewrittenTooLong(file, saved, msgs);
    }
  }

  /** What the resend of an ascending block list covers before it ends or throws: every packet of every listed
      block that exists in the file. */
  lemma AscendingResendCovers(file: seq<Byte>, damaged: seq<nat>, n: nat, s: nat, b: nat)
    requires forall i, j :: 0 <= i < j < |damaged| ==> damaged[i] < damaged[j]
    requires ResendsReach(file, damaged, n)
    requires n < 10 * |damaged| ==> ResendStops(file, damaged, n)
    requires b < |damaged| && damaged[b] == s / 10 && s < TotalPackets(|file|)
    ensures HonestRepairs(file, Resends(file, damaged, n))
    ensures Covers(Resends(file, damaged, n), s)
  {
    var msgs := Resends(file, damaged, n);
    forall k | 0 <= k < n
      ensures msgs[k].seqNo < TotalPackets(|file|)
    {
      assert !ResendStops(file, damaged, k);
    }
    var k := 10 * b + s % 10;
    assert Resent(damaged, k) == s;
    if k >= n {
      ResendStopsBehind(file, damaged, n, k);
    }
    assert msgs[k].seqNo == s;
  }

  lemma ResendStopsBehind(file: seq<Byte>, damaged: seq<nat>, n: nat, k: nat)
    requires forall i, j :: 0 <= i < j < |damaged| ==> damaged[i] < damaged[j]
    requires n <= k < 10 * |damaged| && ResendStops(file, damaged, n)
    ensures Resent(damaged, k) >= TotalPackets(|file|)
  {
  }

  /** Nothing outside the listed blocks is resent. */
  lemma ResentIsListed(damaged: seq<nat>, k: nat)
    requires k < 10 * |damaged|
    ensures Resent(damaged, k) / 10 == damaged[k / 10]
  {
  }

  /** Block-level repair, for what SendDamagedHashBlock resends of an ascending block list before it ends or throws:
      packets of listed blocks become right, all others keep their bytes, and the saved file becomes the source if
      and only if it was not too long, it had the right length or the last block is listed, and every packet that
      differed lies in a listed block. */
  lemma BlockRepairExactly(file: seq<Byte>, saved: seq<Byte>, damaged: seq<nat>, n: nat)
    requires forall i, j :: 0 <= i < j < |damaged| ==> damaged[i] < damaged[j]
    requires ResendsReach(file, damaged, n)
    requires n < 10 * |damaged| ==> ResendStops(file, damaged, n)
    ensures HonestRepairs(file, Resends(file, damaged, n))
    ensures |saved| <= |file| ==> forall s :: 0 <= s < TotalPackets(|file|) ==>
              SavedBlock(file, Rewritten(saved, Resends(file, damaged, n)), s) ==
              if s / 10 in damaged then Block(file, s) else SavedBlock(file, saved, s)
    ensures var total := TotalPackets(|file|);
            Rewritten(saved, Resends(file, damaged, n)) == file <==>
              && |saved| <= |file| && (|saved| == |file| || (total - 1) / 10 in damaged)
              && forall s :: 0 <= s < total && SavedBlock(file, saved, s) != Block(file, s) ==> s / 10 in damaged
  {
    var msgs := Resends(file, damaged, n);
    assert HonestRepairs(file, msgs) by {
      forall k | 0 <= k < n
        ensures msgs[k].seqNo < TotalPackets(|file|)
      {
        assert !ResendStops(file, damaged, k);
      }
    }
    forall s | 0 <= s < TotalPackets(|file|)
      ensures Covers(msgs, s) <==> s / 10 in damaged
    {
      CoversExactly(file, damaged, n, s);
    }
    RepairExactly(file, saved, msgs);
  }

  lemma CoversExactly(file: seq<Byte>, damaged: seq<nat>, n: nat, s: nat)
    requires forall i, j :: 0 <= i < j < |damaged| ==> damaged[i] < damaged[j]
    requires ResendsReach(file, damaged, n)
    requires n < 10 * |damaged| ==> ResendStops(file, damaged, n)
    requires s < TotalPackets(|file|)
    ensures Covers(Resends(file, damaged, n), s) <==> s / 10 in damaged
  {
    var msgs := Resends(file, damaged, n);
    if Covers(msgs, s) {
      var k :| 0 <= k < |msgs| && msgs[k].ReTranDamagedHash? && msgs[k].seqNo == s;
      ResentIsListed(damaged, k);
    }
    if b :| 0 <= b < |damaged| && damaged[b] == s / 10 {
      AscendingResendCovers(file, damaged, n, s, b);
    }
  }
}
