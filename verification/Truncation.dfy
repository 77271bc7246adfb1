/** When FileComplete can be sent over a wrong file although the hash has no collisions. Overwritten packets are whole
    packets 1024 numbers away from the end, which the digest covers; only the short last packet, overwriting a full
    one, shortens the file so that the digest of a large file may not notice. */
module Truncation {
  import opened Streams
  import opened Packets
  import opened Transfer
  import opened Runs
  import opened Integrity
  import opened Recovery
  import opened Upload
  import opened Overrun
  import opened Hash

  /** Packet `p` can be found in the slot where packet `s` is expected. */
  predicate Stands(file: seq<Byte>, p: nat, s: nat) {
    s <= p < TotalPackets(|file|) && Slot(p) == Slot(s)
  }

  ghost predicate StoredFor(file: seq<Byte>, data: seq<Byte>, s: nat) {
    exists p :: Stands(file, p, s) && data == Block(file, p)
  }

  /** The last 1024 packets cannot be overwritten: so far the disk has the right length, and the right bytes of them. */
  ghost predicate TailRight(file: seq<Byte>, t: Ring) {
    && |t.disk| == |Prefix(file, t.next)|
    && forall x :: Offset(TotalPackets(|file|)) - Offset(WINDOW_SIZE) <= x < |t.disk| && 0 <= x ==> t.disk[x] == file[x]
  }

  /** The short last packet has been written in the place of a full one. */
  ghost predicate CutShort(file: seq<Byte>, t: Ring) {
    && |file| % FILE_DATA_LEN != 0
    && |t.disk| + FILE_DATA_LEN - |file| % FILE_DATA_LEN <= |Prefix(file, t.next)|
  }

  ghost predicate Traced(file: seq<Byte>, t: Ring) {
    && t.Frontier() && |t.flags| == TotalPackets(|file|)
    && (forall s :: 0 <= s < |t.flags| && t.flags[s] ==> s < t.window + WINDOW_SIZE)
    && (forall s :: t.next <= s < |t.flags| && t.flags[s] ==> StoredFor(file, t.slots[Slot(s)], s))
    && (TailRight(file, t) || CutShort(file, t))
  }

  /** The slot packet `k` is expected in, after packet `s` is stored. */
  lemma AcceptStored(file: seq<Byte>, t: Ring, s: nat, k: nat)
    requires t.Shape() && Admits(t, s) && s < |t.flags| == TotalPackets(|file|)
    requires k < t.window + WINDOW_SIZE && (k != s ==> StoredFor(file, t.slots[Slot(k)], k))
    ensures StoredFor(file, Accept(t, s, Block(file, s)).slots[Slot(k)], k)
  {
    if Slot(k) == Slot(s) {
      assert k < s + WINDOW_SIZE && Stands(file, s, k);
    }
  }

  lemma AcceptTraced(file: seq<Byte>, t: Ring, s: nat)
    requires Traced(file, t) && (Admits(t, s) ==> s < |t.flags|)
    ensures Traced(file, Accept(t, s, Block(file, s)))
  {
    if Admits(t, s) {
      var u := Accept(t, s, Block(file, s));
      AcceptKeepsFrontier(t, s, Block(file, s));
      assert u.flags == t.flags[s := true] && u.next == t.next && u.disk == t.disk;
      forall k | u.next <= k < |u.flags| && u.flags[k]
        ensures StoredFor(file, u.slots[Slot(k)], k)
      {
        AcceptStored(file, t, s, k);
      }
    }
  }

  /** A flusher turn that writes packet `p` in the place of the next one. */
  lemma FlushStays(file: seq<Byte>, t: Ring, p: nat)
    requires t.Frontier() && CanFlush(t) && |t.flags| == TotalPackets(|file|)
    requires Stands(file, p, t.next) && t.slots[Slot(t.next)] == Block(file, p)
    requires TailRight(file, t) || CutShort(file, t)
    ensures TailRight(file, FlushOne(t)) || CutShort(file, FlushOne(t))
  {
    var n, u := t.next, FlushOne(t);
    BlockBounds(file, p);
    BlockBounds(file, n);
    PrefixGrows(file, n);
    if TailRight(file, t) && |Block(file, p)| == |Block(file, n)| {
      assert p == n || n + WINDOW_SIZE < TotalPackets(|file|);
      assert TailRight(file, u);
    } else {
      assert CutShort(file, u);
    }
  }

  lemma PrefixGrows(file: seq<Byte>, n: nat)
    ensures |Prefix(file, n + 1)| == |Prefix(file, n)| + |Block(file, n)|
  {
    PrefixExtend(file, n);
  }

  lemma FlushTraced(file: seq<Byte>, t: Ring)
    requires Traced(file, t) && CanFlush(t)
    ensures Traced(file, FlushOne(t))
  {
    FlushKeepsFrontier(t);
    assert StoredFor(file, t.slots[Slot(t.next)], t.next);
    var p :| Stands(file, p, t.next) && t.slots[Slot(t.next)] == Block(file, p);
    FlushStays(file, t, p);
  }

  lemma StepTraced(file: seq<Byte>, v: Server, e: Event, verify: Verifier)
    requires Traced(file, v.ring) && Enabled(v, e) && Honest(file, e)
    ensures Traced(file, Step(v, e, verify).ring)
  {
    StepRing(v, e, verify);
    match e
    case Data(s, _) => AcceptTraced(file, v.ring, s);
    case Flush => FlushTraced(file, v.ring);
    case _ =>
  }

  lemma StartTraced(file: seq<Byte>, last: nat)
    requires |file| > 0
    ensures Traced(file, Start(TotalPackets(|file|), last).ring)
  {
  }

  lemma {:induction false} RunTraced(file: seq<Byte>, v: Server, es: seq<Event>, verify: Verifier)
    requires Traced(file, v.ring) && HonestRun(file, v, es, verify)
    ensures Traced(file, Run(v, es, verify).ring)
    decreases |es|
  {
    if es != [] {
      StepTraced(file, v, es[0], verify);
      RunTraced(file, Step(v, es[0], verify), es[1..], verify);
    }
  }

  lemma {:induction false} PlayTraced(file: seq<Byte>, y: System, ms: seq<Move>, verify: Verifier)
    requires Sane(file, y) && ValidMoves(file, y, ms, verify) && Traced(file, y.v.ring) && Answered(y.v, verify)
    ensures Traced(file, Play(file, y, ms, verify).v.ring) && Answered(Play(file, y, ms, verify).v, verify)
    decreases |ms|
  {
    if ms != [] {
      MoveKeepsSane(file, y, ms[0], verify);
      MoveTraced(file, y, ms[0], verify);
      PlayTraced(file, Moved(file, y, ms[0], verify), ms[1..], verify);
    }
  }

  lemma MoveTraced(file: seq<Byte>, y: System, m: Move, verify: Verifier)
    requires Sane(file, y) && CanMove(y, m) && Traced(file, y.v.ring) && Answered(y.v, verify)
    ensures Traced(file, Moved(file, y, m, verify).v.ring) && Answered(Moved(file, y, m, verify).v, verify)
  {
    if m.Thread? || (m.ServerTake? && Live(y.v)) {
      var e := if m.Thread? then m.e else EventOf(y.wire[0]);
      assert m.ServerTake? ==> HonestMsg(file, y.wire[0]);
      StepTraced(file, y.v, e, verify);
      StepAnswered(y.v, e, verify);
    }
  }

  // ----- what the digest sees -----

  /** The digest of the saved file is compared with that of the source. */
  function Checks<C>(h: Md5<C>, file: seq<Byte>): Verifier {
    d => FileDigest(h, d) == FileDigest(h, file)
  }

  /** Sizes of at least 10 MiB whose last packet is short, and whose last partial MiB is at least as long as what is
      missing from that packet. */
  predicate Escapable(n: nat) {
    n >= 10 * MIB && n % FILE_DATA_LEN != 0 && n % MIB + n % FILE_DATA_LEN >= FILE_DATA_LEN
  }

  lemma WholeMibCoverage(n: nat)
    ensures Offset(TotalPackets(n)) - Offset(WINDOW_SIZE) <= n / MIB * MIB <= n
  {
    var q := n / MIB;
    assert q * MIB <= n < (q + 1) * MIB;
    TotalPacketsIsCeiling(n, TotalPackets(n));
    assert (q + 1) * MIB == Offset((q + 1) * WINDOW_SIZE);
  }

  /** A finished file of the right length that passes is the source: the whole-MiB prefix covers everything but the
      last 1024 packets. */
  lemma RightLengthIsRight(file: seq<Byte>, t: Ring)
    requires t.next == TotalPackets(|file|) && TailRight(file, t) && WholeMib(t.disk) == WholeMib(file)
    ensures t.disk == file
  {
    PrefixAll(file, t.next);
    WholeMibCoverage(|file|);
    forall x | 0 <= x < |file|
      ensures t.disk[x] == file[x]
    {
      if x < |WholeMib(file)| {
        assert WholeMib(t.disk)[x] == WholeMib(file)[x];
      }
    }
  }

  /** Among small files the digest tells the source from everything that is not longer. */
  lemma SmallPassesAlone<C>(h: Md5<C>, file: seq<Byte>, d: seq<Byte>)
    requires CollisionFree(h) && Checks(h, file)(d) && |d| <= |file|
    ensures |d| < 10 * MIB ==> d == file
  {
  }

  lemma EscapeNeedsSize<C>(h: Md5<C>, file: seq<Byte>, t: Ring)
    requires CollisionFree(h) && |file| > 0 && Traced(file, t) && t.flushed
    requires Checks(h, file)(t.disk) && t.disk != file
    ensures Escapable(|file|) && |t.disk| < |file|
  {
    PrefixAll(file, t.next);
    SmallPassesAlone(h, file, t.disk);
    LargeDigestSeesExactly(h, t.disk, file);
    if TailRight(file, t) {
      RightLengthIsRight(file, t);
    }
    assert |WholeMib(t.disk)| == |WholeMib(file)|;
  }

  /** The packet the last one can overwrite. */
  function Victim(n: nat): int {
    TotalPackets(n) - 1 - WINDOW_SIZE
  }

  lemma EscapableSizes(n: nat)
    requires Escapable(n)
    ensures var s, short := Victim(n), n % FILE_DATA_LEN;
            && s >= 0 && Offset(s) + short + MIB == n && Offset(s) + short <= n / MIB * MIB
            && n / MIB * MIB + FILE_DATA_LEN - short <= n && (n + short - FILE_DATA_LEN) / MIB == n / MIB
  {
  }

  /** Where the byte comes from that is then saved at `x`: the last packet in the place of the overwritten one, and
      behind it everything moved up by what the last packet lacks. */
  function SavedFrom(n: nat, x: nat): nat {
    var start, short := Offset(TotalPackets(n)) - Offset(WINDOW_SIZE + 1), n % FILE_DATA_LEN;
    if x < start then x else if x < start + short then x + MIB else x + FILE_DATA_LEN - short
  }

  /** The whole MiB of the file are the same after the move. */
  ghost predicate SurvivesShift(file: seq<Byte>)
    requires Escapable(|file|)
  {
    forall x :: 0 <= x < |file| / MIB * MIB ==>
                  SavedFrom(|file|, x) < |file| && file[x] == file[SavedFrom(|file|, x)]
  }

  /** The bytes of the overwritten file. */
  lemma OverwrittenAt(file: seq<Byte>, x: nat)
    requires Escapable(|file|) && x < |file| / MIB * MIB && Victim(|file|) >= 0
    ensures var d := Overwritten(file, Victim(|file|));
            && |d| == |file| + |file| % FILE_DATA_LEN - FILE_DATA_LEN && x < |d|
            && SavedFrom(|file|, x) < |file| && d[x] == file[SavedFrom(|file|, x)]
  {
    var s, short := Victim(|file|), |file| % FILE_DATA_LEN;
    EscapableSizes(|file|);
    OverwrittenDiffers(file, s);
    BlockBounds(file, s + WINDOW_SIZE);
    assert |Block(file, s + WINDOW_SIZE)| == short;
  }

  /** With its last packet written in the place of the one 1024 before, a file passes if and only if it is of an
      escaping size and survives the shift. */
  lemma OverwrittenPassesExactly<C>(h: Md5<C>, file: seq<Byte>)
    requires CollisionFree(h) && Victim(|file|) >= 0 && |file| % FILE_DATA_LEN != 0
    ensures Overwritten(file, Victim(|file|)) != file
    ensures Checks(h, file)(Overwritten(file, Victim(|file|))) <==> Escapable(|file|) && SurvivesShift(file)
  {
    var s := Victim(|file|);
    var d := Overwritten(file, s);
    OverwrittenDiffers(file, s);
    BlockBounds(file, s + WINDOW_SIZE);
    assert |d| < |file|;
    if Escapable(|file|) {
      EscapableSizes(|file|);
      LargeDigestSeesExactly(h, d, file);
      SurvivesExactly(file);
    } else if Checks(h, file)(d) {
      ShortNeedsSize(h, file, d);
    }
  }

  /** What is shorter by what the last packet lacks passes only for such a size. */
  lemma ShortNeedsSize<C>(h: Md5<C>, file: seq<Byte>, d: seq<Byte>)
    requires CollisionFree(h) && Checks(h, file)(d)
    requires |file| % FILE_DATA_LEN != 0 && |d| + FILE_DATA_LEN - |file| % FILE_DATA_LEN == |file|
    ensures Escapable(|file|)
  {
    SmallPassesAlone(h, file, d);
    if |d| >= 10 * MIB {
      LargeDigestSeesExactly(h, d, file);
      assert |WholeMib(d)| == |WholeMib(file)|;
    }
  }

  lemma SurvivesExactly(file: seq<Byte>)
    requires Escapable(|file|) && Victim(|file|) >= 0
    ensures WholeMib(Overwritten(file, Victim(|file|))) == WholeMib(file) <==> SurvivesShift(file)
  {
    var d, m := Overwritten(file, Victim(|file|)), |file| / MIB * MIB;
    EscapableSizes(|file|);
    OverwrittenAt(file, 0);
    assert WholeMib(d) == d[..m] && WholeMib(file) == file[..m];
    forall x | 0 <= x < m
      ensures x < |d| && SavedFrom(|file|, x) < |file| && d[x] == file[SavedFrom(|file|, x)]
    {
      OverwrittenAt(file, x);
    }
    if WholeMib(d) == WholeMib(file) {
      forall x | 0 <= x < m
        ensures d[x] == file[x]
      {
        assert d[..m][x] == file[..m][x];
      }
    }
  }

  function Zeros(n: nat): seq<Byte> { seq(n, _ => 0) }

  // ----- the exact condition -----

  /** Some file of `n` bytes can be uploaded by the real client over the lossless connection so that the server
      answers FileComplete over a wrong file. */
  ghost predicate CanEscape<C(!new)>(h: Md5<C>, n: nat, last: nat, env: Setting) {
    exists file, y ::
      && |file| == n && Reachable(file, last, env, y, Checks(h, file))
      && FileComplete in y.v.out && y.v.ring.disk != file
  }

  /** Whatever is lost, repeated or reordered: FileComplete over a wrong file means a size of this kind, and a saved
      file shorter than the source. */
  lemma WrongCompleteIsShort<C>(h: Md5<C>, file: seq<Byte>, last: nat, es: seq<Event>)
    requires CollisionFree(h) && |file| > 0
    requires HonestRun(file, Start(TotalPackets(|file|), last), es, Checks(h, file))
    ensures var w := Run(Start(TotalPackets(|file|), last), es, Checks(h, file));
            FileComplete in w.out && w.ring.disk != file ==> Escapable(|file|) && |w.ring.disk| < |file|
  {
    var start, verify := Start(TotalPackets(|file|), last), Checks(h, file);
    StartTraced(file, last);
    RunTraced(file, start, es, verify);
    CompleteOnlyWhenVerified(start, es, verify);
    var w := Run(start, es, verify);
    if FileComplete in w.out && w.ring.disk != file {
      EscapeNeedsSize(h, file, w.ring);
    }
  }

  lemma EscapeImpliesSize<C>(h: Md5<C>, file: seq<Byte>, last: nat, env: Setting, y: System)
    requires CollisionFree(h) && |file| > 0 && Reachable(file, last, env, y, Checks(h, file))
    requires FileComplete in y.v.out && y.v.ring.disk != file
    ensures Escapable(|file|) && |y.v.ring.disk| < |file|
  {
    var x, verify := Begin(file, last, env), Checks(h, file);
    var ms :| ValidMoves(file, x, ms, verify) && Play(file, x, ms, verify) == y;
    BeginSane(file, last, env);
    StartTraced(file, last);
    PlayTraced(file, x, ms, verify);
    EscapeNeedsSize(h, file, y.v.ring);
  }

  /** For each such file the real client can get FileComplete over a wrong file. */
  lemma ShiftedEscapes<C(!new)>(h: Md5<C>, file: seq<Byte>, last: nat, env: Setting) returns (y: System)
    requires CollisionFree(h) && Escapable(|file|) && Victim(|file|) >= 0 && SurvivesShift(file)
    ensures Reachable(file, last, env, y, Checks(h, file)) && FileComplete in y.v.out
    ensures y.v.ring.disk == Overwritten(file, Victim(|file|)) && y.v.ring.disk != file
  {
    OverwrittenPassesExactly(h, file);
    y := OverrunUpload(file, last, Victim(|file|), env, Checks(h, file));
  }

  lemma SizeEscapes<C(!new)>(h: Md5<C>, n: nat, last: nat, env: Setting)
    requires CollisionFree(h) && Escapable(n)
    ensures CanEscape(h, n, last, env)
  {
    EscapableSizes(n);
    var file := Zeros(n);
    var y := ShiftedEscapes(h, file, last, env);
  }

  /** Even with a hash without collisions, for some file of `n` bytes FileComplete can be sent over a wrong file if
      and only if `n` is such a size. */
  lemma EscapesExactly<C(!new)>(h: Md5<C>, n: nat, last: nat, env: Setting)
    requires CollisionFree(h) && n > 0
    ensures CanEscape(h, n, last, env) <==> Escapable(n)
  {
    if Escapable(n) {
      SizeEscapes(h, n, last, env);
    }
    if CanEscape(h, n, last, env) {
      var file, y :|
        && |file| == n && Reachable(file, last, env, y, Checks(h, file))
        && FileComplete in y.v.out && y.v.ring.disk != file;
      EscapeImpliesSize(h, file, last, env, y);
    }
  }
}
