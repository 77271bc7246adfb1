/** Reliable uploads of at most 100 packets when the timer expires: FileFinish is sent twice and starts two checks. */
module Resending {
  import opened Streams
  import opened Packets
  import opened Sender
  import opened Transfer
  import opened Runs
  import opened Opening
  import opened Upload
  import opened Outcome
  import opened Verdict
  import opened Stages

  ghost predicate Small(file: seq<Byte>, last: nat, verify: Verifier) {
    Reliable(file, last) && TotalPackets(|file|) <= CHECK_LOST_PER_BAGS && verify(file)
  }

  /** A state in which the client has handled nothing the server sent. */
  ghost predicate Unheard(file: seq<Byte>, last: nat, y: System, verify: Verifier) {
    && Calm(file, last, y, verify) && y.replay == [] && y.taken == 0 && !y.acked
    && y.v.waiting == y.v.blocked == 0
  }

  /** Part of the file is streamed and handled. */
  ghost predicate Underway(file: seq<Byte>, last: nat, y: System, verify: Verifier) {
    Unheard(file, last, y, verify) && y.v.out == [] && y.v.starting == 0 && y.resent == 0 && !y.v.finalAccepted
  }

  /** FileFinish has come `n` times, and none of the checks has looked yet. */
  ghost predicate FinishedTimes(file: seq<Byte>, last: nat, y: System, n: nat, verify: Verifier) {
    && Unheard(file, last, y, verify) && y.stream == [] && y.v.finalAccepted && y.v.starting == n
    && y.v.out == seq(n, _ => ServerRecevFinal)
  }

  /** What the client streams next is a packet that has not been received, or FileFinish as the last message. */
  lemma StreamHead(file: seq<Byte>, last: nat, y: System, verify: Verifier)
    requires Small(file, last, verify) && Underway(file, last, y, verify)
    ensures y.stream != []
    ensures y.stream[0].FileDataBag? || y.stream == [FileFinish]
    ensures y.stream[0].FileDataBag? ==> y.stream[0].seqNo < |y.v.ring.flags| && !y.v.ring.flags[y.stream[0].seqNo]
  {
    ReachableOnward(file, last, y.env, y, verify);
    var k := Handled(file, y);
    assert y.wire + y.stream == y.stream == Sent(file, 0)[k..];
    SentData(file, 0, k);
    if k < |Plan(file)| - 1 {
      PlanData(file, k);
    }
  }

  lemma {:induction false} StreamOut(file: seq<Byte>, last: nat, y: System, verify: Verifier) returns (z: System)
    requires Small(file, last, verify) && Underway(file, last, y, verify)
    ensures FinishedTimes(file, last, z, 1, verify) && z.env == y.env
    decreases |y.stream|
  {
    StreamHead(file, last, y, verify);
    if y.stream[0].FileDataBag? {
      NewDataAsksNothing(y.v, y.stream[0].seqNo, y.stream[0].data);
    }
    z := Feed(file, last, y, verify);
    if y.stream[0].FileDataBag? {
      z := StreamOut(file, last, z, verify);
    }
  }

  /** The timer expires before the client has handled the acknowledgement. */
  lemma FinishAgain(file: seq<Byte>, last: nat, y: System, n: nat, verify: Verifier) returns (z: System)
    requires FinishedTimes(file, last, y, n, verify) && y.env.timer
    ensures FinishedTimes(file, last, z, n + 1, verify) && z.env == y.env
  {
    z := Moved(file, y, Resend, verify);
    ReachMove(file, last, y.env, y, Resend, verify);
    MoveKeepsSane(file, y, Resend, verify);
    assert z.wire == [FileFinish];
    ReachMove(file, last, y.env, z, ServerTake, verify);
    MoveKeepsSane(file, z, ServerTake, verify);
    z := Moved(file, z, ServerTake, verify);
  }

  lemma FinishedTwice(file: seq<Byte>, last: nat, env: Setting, verify: Verifier) returns (z: System)
    requires Small(file, last, verify) && env.timer
    ensures FinishedTimes(file, last, z, 2, verify) && z.env == env
  {
    z := Begin(file, last, env);
    BeginReachable(file, last, env, verify);
    BeginSane(file, last, env);
    z := StreamOut(file, last, z, verify);
    z := FinishAgain(file, last, z, 1, verify);
  }

  /** What the checks see: everything that is missing. */
  lemma ChecksSeeAll(file: seq<Byte>, last: nat, y: System, n: nat, verify: Verifier)
    requires Small(file, last, verify) && FinishedTimes(file, last, y, n, verify)
    ensures Missing(y.v.ring) == [] ==> y.v.ring.window == |y.v.ring.flags|
  {
    ReachableOnward(file, last, y.env, y, verify);
    FinishSeesAll(file, y, last);
  }

  // ----- something is missing: one check asks, the other one looks when everything is there -----

  /** The replay of the one request is under way, and the second check has not looked yet. */
  ghost predicate Refilling(file: seq<Byte>, last: nat, y: System, verify: Verifier) {
    && Calm(file, last, y, verify) && y.stream == [] && y.taken == |y.v.out| && !NoneAsked(y.v.out)
    && y.v.finalAccepted && y.v.starting == 1 && y.v.waiting == y.v.blocked == 0
    && FreshReplay(y.replay, y.v.ring)
  }

  lemma AskOnce(file: seq<Byte>, last: nat, y: System, verify: Verifier) returns (z: System)
    requires FinishedTimes(file, last, y, 2, verify) && Missing(y.v.ring) != []
    ensures Calm(file, last, z, verify)
    ensures z == y.(v := z.v) && z.v == StartFinalCheck(y.v)
    ensures z.v.out == [ServerRecevFinal, ServerRecevFinal, TellLostBag(Missing(y.v.ring))]
  {
    z := Moved(file, y, Thread(Check), verify);
    ReachMove(file, last, y.env, y, Thread(Check), verify);
    MoveKeepsSane(file, y, Thread(Check), verify);
  }

  lemma Hear(file: seq<Byte>, last: nat, y: System, verify: Verifier) returns (z: System)
    requires Calm(file, last, y, verify) && CanMove(y, ClientTake)
    ensures Calm(file, last, z, verify) && z == Moved(file, y, ClientTake, verify)
  {
    z := Moved(file, y, ClientTake, verify);
    ReachMove(file, last, y.env, y, ClientTake, verify);
    MoveKeepsSane(file, y, ClientTake, verify);
  }

  lemma AskAndHear(file: seq<Byte>, last: nat, y: System, verify: Verifier) returns (z: System)
    requires FinishedTimes(file, last, y, 2, verify) && Missing(y.v.ring) != []
    ensures Refilling(file, last, z, verify) && z.env == y.env
  {
    z := AskOnce(file, last, y, verify);
    z := Hear(file, last, z, verify);
    z := Hear(file, last, z, verify);
    ReplayIsFresh(file, z.v.ring);
    z := Hear(file, last, z, verify);
    assert z.v.out[2].TellLostBag?;
  }

  lemma RefillOne(file: seq<Byte>, last: nat, y: System, verify: Verifier) returns (z: System)
    requires Small(file, last, verify) && Refilling(file, last, y, verify) && |y.replay| > 1
    ensures Refilling(file, last, z, verify) && z.env == y.env && |z.replay| < |y.replay|
  {
    NewDataAsksNothing(y.v, y.replay[0].seqNo, y.replay[0].data);
    z := FeedReplay(file, last, y, verify);
    FreshTail(y.replay, y.v.ring, z.v.ring);
  }

  lemma {:induction false} Refill(file: seq<Byte>, last: nat, y: System, verify: Verifier) returns (z: System)
    requires Small(file, last, verify) && Refilling(file, last, y, verify)
    ensures Refilling(file, last, z, verify) && z.env == y.env && z.replay == [ReTransLostBagFinished]
    decreases |y.replay|
  {
    z := y;
    if |y.replay| > 1 {
      z := RefillOne(file, last, y, verify);
      z := Refill(file, last, z, verify);
    }
  }

  /** With only replay-done left nothing is owed any more. */
  lemma Refilled(file: seq<Byte>, last: nat, y: System, verify: Verifier)
    requires Small(file, last, verify) && Refilling(file, last, y, verify) && y.replay == [ReTransLostBagFinished]
    ensures y.v.ring.window == |y.v.ring.flags|
  {
    ReachableOnward(file, last, y.env, y, verify);
    forall s | 0 <= s < |y.v.ring.flags|
      ensures y.v.ring.flags[s]
    {
      assert !Owed(file, y, s);
    }
  }

  lemma FlushedIsSource(file: seq<Byte>, last: nat, y: System, verify: Verifier)
    requires Small(file, last, verify) && Reachable(file, last, y.env, y, verify) && y.v.ring.flushed
    ensures y.v.ring.disk == file
  {
    ReachableOnward(file, last, y.env, y, verify);
    PrefixAll(file, TotalPackets(|file|));
  }

  /** If something is missing, the second check can look while replay-done is still to come. */
  lemma SecondLooksLate(file: seq<Byte>, last: nat, y: System, verify: Verifier) returns (z: System)
    requires Small(file, last, verify) && FinishedTimes(file, last, y, 2, verify) && Missing(y.v.ring) != []
    ensures Calm(file, last, z, verify) && Concluded(file, z, file) && z.env == y.env
  {
    z := AskAndHear(file, last, y, verify);
    z := Refill(file, last, z, verify);
    Refilled(file, last, z, verify);
    z := LookForGaps(file, last, z, verify);
    z := FlushOut(file, last, z, verify);
    FlushedIsSource(file, last, z, verify);
  }

  // ----- nothing is missing: both checks wait -----

  /** Both checks are about to answer, and the client has not handled an acknowledgement. */
  ghost predicate Doubled(file: seq<Byte>, last: nat, y: System, verify: Verifier) {
    && Calm(file, last, y, verify) && y.stream == [] && y.replay == [] && !y.acked
    && y.v.ring.flushed && y.v.ring.disk == file && y.v.waiting == 2
  }

  lemma BothWait(file: seq<Byte>, last: nat, y: System, verify: Verifier) returns (z: System)
    requires Small(file, last, verify) && FinishedTimes(file, last, y, 2, verify) && Missing(y.v.ring) == []
    ensures Doubled(file, last, z, verify) && z.env == y.env
  {
    ChecksSeeAll(file, last, y, 2, verify);
    z := LookForGaps(file, last, y, verify);
    z := LookForGaps(file, last, z, verify);
    z := FlushOut(file, last, z, verify);
    FlushedIsSource(file, last, z, verify);
  }

  /** One of them completes the upload; then the timer expires. */
  lemma LateFinishCrashes(file: seq<Byte>, last: nat, y: System, verify: Verifier) returns (z: System)
    requires Doubled(file, last, y, verify) && y.env.timer && verify(file)
    ensures Reachable(file, last, z.env, z, verify) && z.crashed && z.env == y.env
  {
    var x := WakeUp(file, last, y, verify);
    assert x.v.out[|y.v.out|] == FileComplete;
    z := Moved(file, x, Resend, verify);
    ReachMove(file, last, x.env, x, Resend, verify);
    assert z.wire == [FileFinish] && CanMove(z, ServerTake);
    ReachMove(file, last, z.env, z, ServerTake, verify);
    z := Moved(file, z, ServerTake, verify);
  }

  lemma BothComplete(file: seq<Byte>, last: nat, y: System, verify: Verifier) returns (z: System)
    requires Doubled(file, last, y, verify) && verify(file)
    ensures Reachable(file, last, z.env, z, verify) && Completions(z.v.out) > 1 && z.env == y.env
  {
    z := WakeUp(file, last, y, verify);
    z := WakeUp(file, last, z, verify);
  }
}
