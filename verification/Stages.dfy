/** Uploads of at most 100 packets whose timer does not expire: nothing is asked for before FileFinish, and only once
    after it, and the upload goes through five stages. */
module Stages {
  import opened Streams
  import opened Packets
  import opened Sender
  import opened Transfer
  import opened Runs
  import opened Upload
  import opened Termination
  import opened Outcome
  import opened Verdict

  /** How often FileComplete has been sent. */
  function Completions(out: seq<ServerMsg>): nat { multiset(out)[FileComplete] }

  ghost predicate Idle(y: System) {
    y.stream == [] && y.replay == [] && y.wire == []
  }

  /** Data messages for unreceived packets, in ascending order, and then replay-done. */
  ghost predicate FreshReplay(q: seq<ClientMsg>, t: Ring) {
    && q != [] && q[|q| - 1].ReTransLostBagFinished?
    && (forall i :: 0 <= i < |q| - 1 ==> q[i].FileDataBag? && q[i].seqNo < |t.flags| && !t.flags[q[i].seqNo])
    && forall i, j :: 0 <= i < j < |q| - 1 ==> q[i].seqNo < q[j].seqNo
  }

  predicate NoCheck(v: Server) {
    v.starting == 0 && v.waiting == 0 && v.blocked == 0
  }

  datatype Stage = Streaming | Finished | Asking | Replaying | Settled

  ghost predicate At(y: System, stage: Stage) {
    match stage
    case Streaming => y.v.out == [] && NoCheck(y.v) && !y.v.finalAccepted
    case Finished =>
      && Idle(y) && y.v.starting == 1 && y.v.waiting == 0 && y.v.blocked == 0 && y.taken <= 1
      && y.v.out == [ServerRecevFinal]
    case Asking =>
      && Idle(y) && NoCheck(y.v) && y.taken <= 1 && Missing(y.v.ring) != []
      && y.v.out == [ServerRecevFinal, TellLostBag(Missing(y.v.ring))]
    case Replaying =>
      && y.stream == [] && NoCheck(y.v) && y.taken == |y.v.out| && Completions(y.v.out) == 0
      && FreshReplay(y.wire + y.replay, y.v.ring) && !NoneAsked(y.v.out)
    case Settled =>
      && Idle(y) && y.taken <= |y.v.out| && NoneAsked(y.v.out[y.taken..])
      && y.v.starting + y.v.waiting + y.v.blocked + Completions(y.v.out) == 1
      && (y.v.starting > 0 ==> y.v.ring.window == |y.v.ring.flags|)
  }

  ghost predicate Tidy(file: seq<Byte>, y: System, last: nat, stage: Stage) {
    Onward(file, y, last) && !y.env.timer && y.resent == 0 && !y.crashed && At(y, stage)
  }

  /** Up to 100 packets a data message of an unreceived packet never causes a request. */
  lemma NewDataAsksNothing(v: Server, s: nat, data: seq<Byte>)
    requires v.ring.Frontier() && s < |v.ring.flags| <= CHECK_LOST_PER_BAGS && !v.ring.flags[s]
    ensures HandleData(v, s, data) == TakePacket(v, s, data)
    ensures Accept(v.ring, s, data).flags == v.ring.flags[s := true]
  {
    GapReportedExactly(Accept(v.ring, s, data));
  }

  lemma StreamingData(file: seq<Byte>, y: System, last: nat, verify: Verifier)
    requires Tidy(file, y, last, Streaming) && TotalPackets(|file|) <= CHECK_LOST_PER_BAGS
    requires CanMove(y, ServerTake) && y.wire[0].FileDataBag?
    ensures At(Moved(file, y, ServerTake, verify), Streaming)
  {
    FirstPhaseHead(file, y, last);
    NewDataAsksNothing(y.v, y.wire[0].seqNo, y.wire[0].data);
  }

  lemma StreamingFinish(file: seq<Byte>, y: System, last: nat, verify: Verifier)
    requires Tidy(file, y, last, Streaming) && CanMove(y, ServerTake) && y.wire[0].FileFinish?
    ensures At(Moved(file, y, ServerTake, verify), Finished)
  {
    FinishComesLast(file, y, last);
  }

  lemma StreamingMoves(file: seq<Byte>, y: System, m: Move, last: nat, verify: Verifier)
    requires Tidy(file, y, last, Streaming) && 0 < TotalPackets(|file|) <= CHECK_LOST_PER_BAGS && CanMove(y, m)
    ensures exists stage :: At(Moved(file, y, m, verify), stage)
    ensures !Moved(file, y, m, verify).crashed
  {
    var z := Moved(file, y, m, verify);
    if m.ServerTake? {
      match y.wire[0]
      case FileDataBag(_, _) => StreamingData(file, y, last, verify);
      case FileFinish => StreamingFinish(file, y, last, verify);
      case ReTransLostBagFinished => ReplayDoneWasAsked(file, y, last);
    } else {
      assert At(z, Streaming);
    }
  }

  /** The check looks: it asks for what is missing, or everything is there. */
  lemma FinishedCheck(file: seq<Byte>, y: System, last: nat, verify: Verifier)
    requires Tidy(file, y, last, Finished) && CanMove(y, Thread(Check))
    ensures var z := Moved(file, y, Thread(Check), verify);
            At(z, if Missing(y.v.ring) != [] then Asking else Settled)
  {
    var z := Moved(file, y, Thread(Check), verify);
    if Missing(y.v.ring) != [] {
      assert z.v.out == [ServerRecevFinal, TellLostBag(Missing(z.v.ring))];
    }
  }

  lemma FinishedMoves(file: seq<Byte>, y: System, m: Move, last: nat, verify: Verifier)
    requires Tidy(file, y, last, Finished) && CanMove(y, m)
    ensures exists stage :: At(Moved(file, y, m, verify), stage)
    ensures !Moved(file, y, m, verify).crashed
  {
    if m == Thread(Check) {
      FinishedCheck(file, y, last, verify);
    } else {
      assert At(Moved(file, y, m, verify), Finished);
    }
  }

  /** The replay of a request that lists exactly the gaps. */
  lemma ReplayIsFresh(file: seq<Byte>, t: Ring)
    requires t.Frontier()
    ensures FreshReplay(Replayed(file, Missing(t)) + [ReTransLostBagFinished], t)
  {
    UnreceivedExactly(t.flags, t.window, Min(t.last, |t.flags|));
    assert forall i :: 0 <= i < |Missing(t)| ==> Missing(t)[i] in Missing(t);
  }

  lemma AskingTaken(file: seq<Byte>, y: System, last: nat, verify: Verifier)
    requires Tidy(file, y, last, Asking) && CanMove(y, ClientTake) && y.taken == 1
    ensures At(Moved(file, y, ClientTake, verify), Replaying)
  {
    var z := Moved(file, y, ClientTake, verify);
    ReplayIsFresh(file, y.v.ring);
    assert y.v.out[1] == TellLostBag(Missing(y.v.ring));
    assert z.wire + z.replay == Replayed(file, Missing(y.v.ring)) + [ReTransLostBagFinished];
  }

  lemma AskingMoves(file: seq<Byte>, y: System, m: Move, last: nat, verify: Verifier)
    requires Tidy(file, y, last, Asking) && CanMove(y, m)
    ensures exists stage :: At(Moved(file, y, m, verify), stage)
    ensures !Moved(file, y, m, verify).crashed
  {
    if m.ClientTake? && y.taken == 1 {
      AskingTaken(file, y, last, verify);
    } else {
      assert At(Moved(file, y, m, verify), Asking);
    }
  }

  lemma FreshTail(q: seq<ClientMsg>, t: Ring, u: Ring)
    requires FreshReplay(q, t) && q[0].FileDataBag? && u.flags == t.flags[q[0].seqNo := true]
    ensures FreshReplay(q[1..], u)
  {
  }

  lemma ReplayingData(file: seq<Byte>, y: System, verify: Verifier)
    requires At(y, Replaying) && y.v.ring.Frontier() && |y.v.ring.flags| <= CHECK_LOST_PER_BAGS
    requires CanMove(y, ServerTake) && y.wire[0].FileDataBag?
    ensures At(Moved(file, y, ServerTake, verify), Replaying) && !Moved(file, y, ServerTake, verify).crashed
  {
    var z, q, s := Moved(file, y, ServerTake, verify), y.wire + y.replay, y.wire[0].seqNo;
    assert q[0] == y.wire[0] && z.wire + z.replay == q[1..];
    NewDataAsksNothing(y.v, s, y.wire[0].data);
    assert z.v == y.v.(ring := z.v.ring, flusher := z.v.flusher) && z.v.ring.flags == y.v.ring.flags[s := true];
    FreshTail(q, y.v.ring, z.v.ring);
  }

  /** When replay-done arrives nothing is owed any more, so everything is received and a check is started. */
  lemma ReplayingDone(file: seq<Byte>, y: System, last: nat, verify: Verifier)
    requires Tidy(file, y, last, Replaying) && CanMove(y, ServerTake) && y.wire[0].ReTransLostBagFinished?
    ensures At(Moved(file, y, ServerTake, verify), Settled)
  {
    var z, q := Moved(file, y, ServerTake, verify), y.wire + y.replay;
    assert q[0] == y.wire[0];
    assert |q| == 1 && y.wire == [ReTransLostBagFinished] && y.replay == [];
    forall s | 0 <= s < |y.v.ring.flags|
      ensures y.v.ring.flags[s]
    {
      assert !Owed(file, y, s);
    }
    assert z.v.out == y.v.out && z.v.out[z.taken..] == [];
  }

  /** Sending and the server's threads change neither what is replayed nor what is missing. */
  lemma ReplayingGoesOn(file: seq<Byte>, y: System, m: Move, verify: Verifier)
    requires At(y, Replaying) && y.v.ring.Frontier() && !y.env.timer && CanMove(y, m) && !m.ServerTake?
    ensures At(Moved(file, y, m, verify), Replaying)
  {
    var z := Moved(file, y, m, verify);
    assert z.wire + z.replay == y.wire + y.replay && z.v.ring.flags == y.v.ring.flags;
  }

  lemma ReplayingMoves(file: seq<Byte>, y: System, m: Move, last: nat, verify: Verifier)
    requires Tidy(file, y, last, Replaying) && TotalPackets(|file|) <= CHECK_LOST_PER_BAGS && CanMove(y, m)
    ensures exists stage :: At(Moved(file, y, m, verify), stage)
    ensures !Moved(file, y, m, verify).crashed
  {
    if m.ServerTake? {
      assert (y.wire + y.replay)[0] == y.wire[0];
      if y.wire[0].FileDataBag? {
        ReplayingData(file, y, verify);
      } else {
        ReplayingDone(file, y, last, verify);
      }
    } else {
      ReplayingGoesOn(file, y, m, verify);
    }
  }

  lemma SettledWake(file: seq<Byte>, y: System, last: nat, verify: Verifier)
    requires Tidy(file, y, last, Settled) && verify(file) && CanMove(y, Thread(Wake))
    ensures At(Moved(file, y, Thread(Wake), verify), Settled)
  {
    var z := Moved(file, y, Thread(Wake), verify);
    PrefixAll(file, TotalPackets(|file|));
    assert z.v.out == y.v.out + [FileComplete];
    assert z.v.out[z.taken..] == y.v.out[y.taken..] + [FileComplete];
  }

  lemma SettledCheck(file: seq<Byte>, y: System, last: nat, verify: Verifier)
    requires Tidy(file, y, last, Settled) && CanMove(y, Thread(Check))
    ensures At(Moved(file, y, Thread(Check), verify), Settled)
  {
    GapReportedExactly(y.v.ring);
    assert Moved(file, y, Thread(Check), verify).v.out == y.v.out;
  }

  lemma SettledTake(file: seq<Byte>, y: System, last: nat, verify: Verifier)
    requires Tidy(file, y, last, Settled) && CanMove(y, ClientTake)
    ensures At(Moved(file, y, ClientTake, verify), Settled)
  {
    assert y.v.out[y.taken] == y.v.out[y.taken..][0];
    assert y.v.out[y.taken + 1..] == y.v.out[y.taken..][1..];
  }

  lemma SettledThread(file: seq<Byte>, y: System, e: Event, verify: Verifier)
    requires At(y, Settled) && y.v.ring.Frontier() && CanMove(y, Thread(e)) && !e.Wake? && !e.Check?
    ensures At(Moved(file, y, Thread(e), verify), Settled)
  {
    assert Step(y.v, e, verify).out == y.v.out;
  }

  lemma SettledMoves(file: seq<Byte>, y: System, m: Move, last: nat, verify: Verifier)
    requires Tidy(file, y, last, Settled) && verify(file) && CanMove(y, m)
    ensures At(Moved(file, y, m, verify), Settled) && !Moved(file, y, m, verify).crashed
  {
    match m
    case ClientTake => SettledTake(file, y, last, verify);
    case Thread(e) =>
      if e.Wake? {
        SettledWake(file, y, last, verify);
      } else if e.Check? {
        SettledCheck(file, y, last, verify);
      } else {
        SettledThread(file, y, e, verify);
      }
  }

  lemma StageMoves(file: seq<Byte>, y: System, m: Move, last: nat, stage: Stage, verify: Verifier)
    requires Tidy(file, y, last, stage) && 0 < TotalPackets(|file|) <= CHECK_LOST_PER_BAGS
    requires verify(file) && CanMove(y, m)
    ensures exists next :: At(Moved(file, y, m, verify), next)
    ensures !Moved(file, y, m, verify).crashed
  {
    match stage
    case Streaming => StreamingMoves(file, y, m, last, verify);
    case Finished => FinishedMoves(file, y, m, last, verify);
    case Asking => AskingMoves(file, y, m, last, verify);
    case Replaying => ReplayingMoves(file, y, m, last, verify);
    case Settled => SettledMoves(file, y, m, last, verify);
  }

  lemma MoveStaysTidy(file: seq<Byte>, y: System, m: Move, last: nat, stage: Stage, verify: Verifier)
      returns (next: Stage)
    requires Tidy(file, y, last, stage) && Reliable(file, last) && TotalPackets(|file|) <= CHECK_LOST_PER_BAGS
    requires verify(file) && CanMove(y, m)
    ensures Tidy(file, Moved(file, y, m, verify), last, next)
  {
    MoveOnward(file, y, m, last, verify);
    StageMoves(file, y, m, last, stage, verify);
    next :| At(Moved(file, y, m, verify), next);
  }

  lemma {:induction false} PlayStaysTidy(
      file: seq<Byte>, y: System, ms: seq<Move>, last: nat, stage: Stage, verify: Verifier) returns (end: Stage)
    requires Tidy(file, y, last, stage) && Reliable(file, last) && TotalPackets(|file|) <= CHECK_LOST_PER_BAGS
    requires verify(file) && ValidMoves(file, y, ms, verify)
    ensures Tidy(file, Play(file, y, ms, verify), last, end)
    decreases |ms|
  {
    end := stage;
    if ms != [] {
      end := MoveStaysTidy(file, y, ms[0], last, stage, verify);
      end := PlayStaysTidy(file, Moved(file, y, ms[0], verify), ms[1..], last, end, verify);
    }
  }

  /** The upload has ended as intended: completed once, the server alive, no check left waiting, and no message left
      over on either side. */
  ghost predicate Clean(y: System) {
    !y.crashed && Idle(y) && y.taken == |y.v.out| && NoCheck(y.v) && Completions(y.v.out) == 1
  }

  lemma TidyRestIsClean(file: seq<Byte>, y: System, last: nat, stage: Stage)
    requires Tidy(file, y, last, stage) && Noted(y) && Quiescent(y)
    ensures Clean(y) <==> !y.missed
  {
    RestIsComplete(file, y, last);
    assert !CanMove(y, ClientTake);
    match stage
    case Streaming =>
    case Finished => assert !CanMove(y, Thread(Check));
    case Asking =>
    case Replaying =>
    case Settled => assert !CanMove(y, Thread(Check));
  }

  lemma SmallIsTidy(file: seq<Byte>, last: nat, env: Setting, y: System, verify: Verifier) returns (stage: Stage)
    requires |file| > 0 && Reliable(file, last) && TotalPackets(|file|) <= CHECK_LOST_PER_BAGS && verify(file)
    requires !env.timer && Reachable(file, last, env, y, verify)
    ensures Tidy(file, y, last, stage)
  {
    var x := Begin(file, last, env);
    var ms :| ValidMoves(file, x, ms, verify) && Play(file, x, ms, verify) == y;
    BeginOnward(file, last, env);
    stage := PlayStaysTidy(file, x, ms, last, Streaming, verify);
  }

  /** Up to 100 packets, if the timer does not expire or the upload is not a reliable one, no message ever reaches the
      server after completion, and no second check waits. Without the timer a reliable upload at rest has ended as
      intended if and only if the packet accepted last was not missed. */
  lemma SmallFileIsClean(file: seq<Byte>, last: nat, env: Setting, y: System, verify: Verifier)
    requires |file| > 0 && TotalPackets(|file|) <= CHECK_LOST_PER_BAGS && verify(file)
    requires Reachable(file, last, env, y, verify) && !(env.timer && Reliable(file, last))
    ensures !y.crashed && Completions(y.v.out) <= 1
    ensures Reliable(file, last) && Quiescent(y) ==> (Clean(y) <==> !y.missed)
  {
    if Reliable(file, last) {
      var stage := SmallIsTidy(file, last, env, y, verify);
      if Quiescent(y) {
        ReachableNoted(file, last, env, y, verify);
        TidyRestIsClean(file, y, last, stage);
      }
    } else {
      var x := Begin(file, last, env);
      var ms :| ValidMoves(file, x, ms, verify) && Play(file, x, ms, verify) == y;
      BeginsDoomed(file, last, env);
      DoomedForever(file, x, ms, TotalPackets(|file|) - 1, verify);
    }
  }
}
