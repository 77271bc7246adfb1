/** What happens after FileComplete. Completing removes the upload, so a message handled later makes the server use a
    null pointer; and a second check that waits completes the upload a second time. */
module Aftermath {
  import opened Streams
  import opened Packets
  import opened Sender
  import opened Transfer
  import opened Runs
  import opened Integrity
  import opened Opening
  import opened Upload
  import opened Termination
  import opened Outcome
  import opened Verdict
  import opened Stages
  import opened Resending

  // ----- more than 100 packets: the request that packet 100 causes can be open until after the end -----

  /** Everything is received, flushed and checked while the request is still open: only its replay-done is held back. */
  lemma ReplayDoneOutstanding(file: seq<Byte>, last: nat, env: Setting, verify: Verifier) returns (y: System)
    requires CHECK_LOST_PER_BAGS < TotalPackets(|file|)
    ensures Calm(file, last, y, verify) && Concluded(file, y, file) && y.env == env
  {
    var total := TotalPackets(|file|);
    y := FirstPacketsCaught(file, last, env, verify);
    var es := Pace(file, y.v, total, verify);
    PrefixAll(file, total);
    y := Conclude(file, last, y, es, verify);
  }

  /** The check completes the upload; replay-done then reaches a server that has removed it. */
  lemma LateReplayCrashes(file: seq<Byte>, last: nat, y: System, verify: Verifier) returns (z: System)
    requires Calm(file, last, y, verify) && Concluded(file, y, file) && verify(file)
    ensures Reachable(file, last, z.env, z, verify) && z.crashed && z.env == y.env
  {
    var x := WakeUp(file, last, y, verify);
    assert x.v.out[|y.v.out|] == FileComplete;
    z := Moved(file, x, ReplaySend, verify);
    ReachMove(file, last, x.env, x, ReplaySend, verify);
    assert z.wire == [ReTransLostBagFinished] && CanMove(z, ServerTake);
    ReachMove(file, last, z.env, z, ServerTake, verify);
    z := Moved(file, z, ServerTake, verify);
  }

  /** Replay-done arrives before the first check has answered and starts a second one, which finds no gap and the flush
      finished like the first: both complete the upload. */
  lemma SecondCheckCompletesToo(file: seq<Byte>, last: nat, y: System, verify: Verifier) returns (z: System)
    requires Calm(file, last, y, verify) && Concluded(file, y, file) && verify(file)
    ensures Reachable(file, last, z.env, z, verify) && Completions(z.v.out) > 1 && z.env == y.env
  {
    var x := FeedReplay(file, last, y, verify);
    x := LookForGaps(file, last, x, verify);
    x := WakeUp(file, last, x, verify);
    z := WakeUp(file, last, x, verify);
  }

  // ----- the exact conditions -----

  ghost predicate NeverCrashes(file: seq<Byte>, last: nat, env: Setting, verify: Verifier) {
    forall y :: Reachable(file, last, env, y, verify) ==> !y.crashed
  }

  ghost predicate CompletesOnce(file: seq<Byte>, last: nat, env: Setting, verify: Verifier) {
    forall y :: Reachable(file, last, env, y, verify) ==> Completions(y.v.out) <= 1
  }

  ghost predicate EndsCleanly(file: seq<Byte>, last: nat, env: Setting, verify: Verifier) {
    forall y :: Reachable(file, last, env, y, verify) && Quiescent(y) ==> Clean(y)
  }

  ghost predicate CleanUnlessMissed(file: seq<Byte>, last: nat, env: Setting, verify: Verifier) {
    forall y :: Reachable(file, last, env, y, verify) && Quiescent(y) ==> (Clean(y) <==> !y.missed)
  }

  /** At most 100 packets, and the timer does not expire or the upload cannot complete anyway. */
  predicate Prompt(file: seq<Byte>, last: nat, env: Setting) {
    TotalPackets(|file|) <= CHECK_LOST_PER_BAGS && !(env.timer && Reliable(file, last))
  }

  /** All other uploads can crash the server. */
  lemma CanCrash(file: seq<Byte>, last: nat, env: Setting, verify: Verifier) returns (z: System)
    requires |file| > 0 && verify(file) && !Prompt(file, last, env)
    ensures Reachable(file, last, env, z, verify) && z.crashed
  {
    if TotalPackets(|file|) > CHECK_LOST_PER_BAGS {
      z := ReplayDoneOutstanding(file, last, env, verify);
      z := LateReplayCrashes(file, last, z, verify);
    } else {
      z := FinishedTwice(file, last, env, verify);
      if Missing(z.v.ring) != [] {
        z := SecondLooksLate(file, last, z, verify);
        z := LateReplayCrashes(file, last, z, verify);
      } else {
        z := BothWait(file, last, z, verify);
        z := LateFinishCrashes(file, last, z, verify);
      }
    }
  }

  /** And be completed twice. */
  lemma CanCompleteTwice(file: seq<Byte>, last: nat, env: Setting, verify: Verifier) returns (z: System)
    requires |file| > 0 && verify(file) && !Prompt(file, last, env)
    ensures Reachable(file, last, env, z, verify) && Completions(z.v.out) > 1
  {
    if TotalPackets(|file|) > CHECK_LOST_PER_BAGS {
      z := ReplayDoneOutstanding(file, last, env, verify);
      z := SecondCheckCompletesToo(file, last, z, verify);
    } else {
      z := FinishedTwice(file, last, env, verify);
      if Missing(z.v.ring) != [] {
        z := SecondLooksLate(file, last, z, verify);
        z := SecondCheckCompletesToo(file, last, z, verify);
      } else {
        z := BothWait(file, last, z, verify);
        z := BothComplete(file, last, z, verify);
      }
    }
  }

  /** For every file: the server never meets a message for the removed upload, and never completes it twice, if and
      only if the file has at most 100 packets and, unless it can never complete anyway, the timer does not expire
      before the acknowledgement is handled. The flusher's mutex makes no difference. */
  lemma LateMessagesExactly(file: seq<Byte>, last: nat, env: Setting, verify: Verifier)
    requires |file| > 0 && verify(file)
    ensures NeverCrashes(file, last, env, verify) <==> Prompt(file, last, env)
    ensures CompletesOnce(file, last, env, verify) <==> Prompt(file, last, env)
    ensures Prompt(file, last, env) <==> |file| <= 100 * 1024 && !(env.timer && Reliable(file, last))
  {
    if Prompt(file, last, env) {
      forall y | Reachable(file, last, env, y, verify)
        ensures !y.crashed && Completions(y.v.out) <= 1
      {
        SmallFileIsClean(file, last, env, y, verify);
      }
    } else {
      var crash := CanCrash(file, last, env, verify);
      var twice := CanCompleteTwice(file, last, env, verify);
    }
  }

  lemma {:induction false} CrashedForever(file: seq<Byte>, y: System, ms: seq<Move>, verify: Verifier)
    requires y.crashed && ValidMoves(file, y, ms, verify)
    ensures Play(file, y, ms, verify).crashed
    decreases |ms|
  {
    if ms != [] {
      CrashedForever(file, Moved(file, y, ms[0], verify), ms[1..], verify);
    }
  }

  lemma RestFrom(file: seq<Byte>, last: nat, env: Setting, y: System, verify: Verifier) returns (z: System)
    requires |file| > 0 && Reachable(file, last, env, y, verify) && y.crashed
    ensures Reachable(file, last, env, z, verify) && Quiescent(z) && z.crashed
  {
    ReachableNoted(file, last, env, y, verify);
    var ms := ComesToRest(file, y, verify);
    CrashedForever(file, y, ms, verify);
    z := Play(file, y, ms, verify);
    ReachPlay(file, last, env, y, ms, verify);
  }

  /** What does not complete or comes late can end badly under the lock. */
  lemma EndsBadlyLocked(file: seq<Byte>, last: nat, env: Setting, verify: Verifier) returns (y: System)
    requires |file| > 0 && verify(file) && env.locked && !(Reliable(file, last) && Prompt(file, last, env))
    ensures Reachable(file, last, env, y, verify) && Quiescent(y) && !Clean(y) && !y.missed
  {
    if Reliable(file, last) {
      y := CanCrash(file, last, env, verify);
      y := RestFrom(file, last, env, y, verify);
      ReachableNoted(file, last, env, y, verify);
    } else {
      y := UnreliableCanFail(file, last, env, verify);
    }
  }

  lemma CanEndBadly(file: seq<Byte>, last: nat, env: Setting, verify: Verifier) returns (y: System)
    requires |file| > 0 && verify(file) && !(Reliable(file, last) && Prompt(file, last, env))
    ensures Reachable(file, last, env, y, verify) && Quiescent(y) && !Clean(y) && !y.missed
  {
    var under := env.(locked := true);
    y := EndsBadlyLocked(file, last, under, verify);
    if !env.locked {
      RestUnlocked(file, last, under, y, verify);
      assert under.(locked := false) == env;
      y := WithoutLock(y);
    }
  }

  /** Without a lock no file is safe from a schedule that does not end as intended. If and only if the upload is a
      reliable one of at most 100 packets and the timer does not expire, a missed packet is the only reason; with the
      flag set under the flusher's mutex every schedule of exactly these uploads ends with one FileComplete, the server
      alive and nothing left over. */
  lemma EndsCleanlyExactly(file: seq<Byte>, last: nat, env: Setting, verify: Verifier)
    requires |file| > 0 && verify(file)
    ensures !env.locked ==> !EndsCleanly(file, last, env, verify)
    ensures CleanUnlessMissed(file, last, env, verify) <==>
              Reliable(file, last) && TotalPackets(|file|) <= CHECK_LOST_PER_BAGS && !env.timer
    ensures env.locked ==>
              (EndsCleanly(file, last, env, verify) <==> CleanUnlessMissed(file, last, env, verify))
  {
    if !env.locked {
      var stranded := EveryFileCanBeStranded(file, last, env, verify);
      assert !Clean(stranded);
    }
    forall y | env.locked && Reachable(file, last, env, y, verify)
      ensures !y.missed
    {
      ReachableNoted(file, last, env, y, verify);
    }
    if Reliable(file, last) && Prompt(file, last, env) {
      forall y | Reachable(file, last, env, y, verify) && Quiescent(y)
        ensures Clean(y) <==> !y.missed
      {
        SmallFileIsClean(file, last, env, y, verify);
      }
    } else {
      var y := CanEndBadly(file, last, env, verify);
    }
  }
}
