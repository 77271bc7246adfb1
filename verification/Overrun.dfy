/** Overwriting with the real client over the lossless connection: for which files can the server save a wrong file? */
module Overrun {
  import opened Streams
  import opened Packets
  import opened Transfer
  import opened Runs
  import opened Integrity
  import opened Upload
  import opened Opening

  // ----- packets 1024 apart are equal: the saved file is always right -----

  /** The disk follows the source, and no check refuses it. */
  ghost predicate Right(file: seq<Byte>, v: Server) {
    Faithful(file, v.ring) && RequestVerify !in v.out
  }

  lemma StepStaysRight(file: seq<Byte>, v: Server, e: Event, verify: Verifier)
    requires Periodic(file) && Right(file, v) && Enabled(v, e) && Honest(file, e) && verify(file)
    ensures Right(file, Step(v, e, verify))
  {
    PeriodicStepFaithful(file, v, e, verify);
    PrefixAll(file, TotalPackets(|file|));
  }

  lemma MoveStaysRight(file: seq<Byte>, y: System, m: Move, verify: Verifier)
    requires Periodic(file) && AllHonest(file, y.wire) && Right(file, y.v) && CanMove(y, m) && verify(file)
    ensures Right(file, Moved(file, y, m, verify).v)
  {
    match m
    case StreamSend =>
    case ReplaySend =>
    case Resend =>
    case ClientTake =>
    case ServerTake =>
      if Live(y.v) {
        assert HonestMsg(file, y.wire[0]);
        StepStaysRight(file, y.v, EventOf(y.wire[0]), verify);
      }
    case Thread(e) => StepStaysRight(file, y.v, e, verify);
  }

  lemma {:induction false} PlayStaysRight(file: seq<Byte>, y: System, ms: seq<Move>, verify: Verifier)
    requires Periodic(file) && Sane(file, y) && Right(file, y.v) && ValidMoves(file, y, ms, verify) && verify(file)
    ensures Right(file, Play(file, y, ms, verify).v)
    decreases |ms|
  {
    if ms != [] {
      MoveKeepsSane(file, y, ms[0], verify);
      MoveStaysRight(file, y, ms[0], verify);
      PlayStaysRight(file, Moved(file, y, ms[0], verify), ms[1..], verify);
    }
  }

  // ----- otherwise: the client's run that overwrites packet `s` -----

  /** The client streams on, the flusher lags, packet `s` is overwritten, and everything is saved; then FileFinish. */
  lemma OverrunUpload(file: seq<Byte>, last: nat, s: nat, env: Setting, verify: Verifier) returns (z: System)
    requires s + WINDOW_SIZE < TotalPackets(|file|)
    ensures Reachable(file, last, env, z, verify)
    ensures z.v.ring.flushed && z.v.ring.window == |z.v.ring.flags| && z.v.ring.disk == Overwritten(file, s)
    ensures (if verify(Overwritten(file, s)) then FileComplete else RequestVerify) in z.v.out
  {
    var y := FirstPacketsCaught(file, last, env, verify);
    var es := OverrunSpoilsFile(file, y.v, s, verify);
    y := Conclude(file, last, y, es, verify);
    z := Moved(file, y, Thread(Wake), verify);
    ReachMove(file, last, env, y, Thread(Wake), verify);
    assert z.v.out[|y.v.out|] == if verify(Overwritten(file, s)) then FileComplete else RequestVerify;
  }

  // ----- the exact conditions -----

  ghost predicate CanSaveWrong(file: seq<Byte>, last: nat, env: Setting, verify: Verifier) {
    exists y :: Reachable(file, last, env, y, verify) && FinishedWrong(file, y.v.ring)
  }

  ghost predicate CanBeRefused(file: seq<Byte>, last: nat, env: Setting, verify: Verifier) {
    exists y :: Reachable(file, last, env, y, verify) && RequestVerify in y.v.out
  }

  lemma PeriodicIsRight(file: seq<Byte>, last: nat, env: Setting, y: System, verify: Verifier)
    requires |file| > 0 && verify(file) && Periodic(file) && Reachable(file, last, env, y, verify)
    ensures !FinishedWrong(file, y.v.ring) && RequestVerify !in y.v.out
  {
    var x := Begin(file, last, env);
    var ms :| ValidMoves(file, x, ms, verify) && Play(file, x, ms, verify) == y;
    BeginSane(file, last, env);
    StartFaithful(file, last);
    PlayStaysRight(file, x, ms, verify);
    PrefixAll(file, TotalPackets(|file|));
  }

  /** With the real client over the lossless connection: the server can finish with a wrong file if and only if some
      packet differs from the one 1024 further on; and if the digest accepts the source alone, exactly then
      can it answer RequestVerify. */
  lemma SavesWrongExactly(file: seq<Byte>, last: nat, env: Setting, verify: Verifier)
    requires |file| > 0 && verify(file)
    ensures CanSaveWrong(file, last, env, verify) <==> !Periodic(file)
    ensures (forall d :: verify(d) ==> d == file) ==> (CanBeRefused(file, last, env, verify) <==> !Periodic(file))
  {
    if Periodic(file) {
      forall y | Reachable(file, last, env, y, verify)
        ensures !FinishedWrong(file, y.v.ring) && RequestVerify !in y.v.out
      {
        PeriodicIsRight(file, last, env, y, verify);
      }
    } else {
      var s :| 0 <= s && s + WINDOW_SIZE < TotalPackets(|file|) && Block(file, s) != Block(file, s + WINDOW_SIZE);
      var z := OverrunUpload(file, last, s, env, verify);
      OverwrittenDiffers(file, s);
    }
  }
}
