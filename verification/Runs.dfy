/** Runs of one upload at the server: any interleaving of packets, steps of the flusher, end-of-file and replay-done
    messages, and steps of FinalCheck threads. Losing or reordering packets is leaving out or permuting events. */
module Runs {
  import opened Streams
  import opened Transfer

  datatype Event =
    | Data(seqNo: nat, data: seq<Byte>)
    | Finish
    | ReCheck
    | Flush // the flusher finds the next packet there and writes it
    | Look  // it does not find it
    | Sleep // and blocks
    | Check // a check that has been started looks for gaps
    | Doze  // it found none, and blocks because the flush is not finished
    | Wake  // or goes on because it is
    | Stir  // the blocked flusher wakes up without a notification
    | Rouse // and so does a blocked check after the flush

  /** Spurious wakeups may happen at any time but cannot be relied on. */
  predicate Spurious(e: Event) {
    e.Stir? || e.Rouse?
  }

  /** Whether the digest of the saved bytes is the declared one. */
  type Verifier = seq<Byte> -> bool

  /** Until FileComplete is sent the file is registered, so its handlers find it. */
  predicate Live(v: Server) {
    FileComplete !in v.out
  }

  ghost predicate Enabled(v: Server, e: Event) {
    && v.ring.Shape()
    && match e
       case Data(s, _) => Live(v) && (Admits(v.ring, s) ==> s < |v.ring.flags|)
       case Finish => Live(v)
       case ReCheck => Live(v)
       case Flush => v.flusher.Looking? && CanFlush(v.ring)
       case Look => v.flusher.Looking? && v.ring.next < |v.ring.flags| && !CanFlush(v.ring)
       case Sleep => v.flusher.AboutToWait?
       case Check => v.starting > 0
       case Doze => v.waiting > 0 && !v.ring.flushed
       case Wake => v.waiting > 0 && v.ring.flushed
       case Stir => v.flusher.Asleep?
       case Rouse => v.blocked > 0 && v.ring.flushed
  }

  ghost function Step(v: Server, e: Event, verify: Verifier): Server
    requires Enabled(v, e)
  {
    match e
    case Data(s, data) => HandleData(v, s, data)
    case Finish => HandleFinish(v)
    case ReCheck => ReCheckFile(v)
    case Flush => FlushTurn(v)
    case Look => v.(flusher := AboutToWait)
    case Sleep => v.(flusher := Asleep)
    case Check => StartFinalCheck(v)
    case Doze => BlockCheck(v)
    case Wake => EndFinalCheck(v, verify(v.ring.disk))
    case Stir => v.(flusher := Looking)
    case Rouse => v.(waiting := v.waiting + 1, blocked := v.blocked - 1)
  }

  ghost predicate ValidRun(v: Server, es: seq<Event>, verify: Verifier)
    decreases |es|
  {
    es == [] || (Enabled(v, es[0]) && ValidRun(Step(v, es[0], verify), es[1..], verify))
  }

  ghost function Run(v: Server, es: seq<Event>, verify: Verifier): Server
    requires ValidRun(v, es, verify)
    decreases |es|
  {
    if es == [] then v else Run(Step(v, es[0], verify), es[1..], verify)
  }

  function Start(total: nat, last: nat): Server {
    Server(
      Ring(seq(total, _ => false), seq(WINDOW_SIZE, _ => []), 0, 0, last, [], false),
      [], true, false, 0, 0, 0, [], Looking)
  }

  lemma {:induction false} RunConcat(v: Server, es: seq<Event>, more: seq<Event>, verify: Verifier)
    requires ValidRun(v, es, verify) && ValidRun(Run(v, es, verify), more, verify)
    ensures ValidRun(v, es + more, verify)
    ensures Run(v, es + more, verify) == Run(Run(v, es, verify), more, verify)
    decreases |es|
  {
    if es == [] {
      assert es + more == more;
    } else {
      RunConcat(Step(v, es[0], verify), es[1..], more, verify);
      assert (es + more)[0] == es[0] && (es + more)[1..] == es[1..] + more;
    }
  }

  lemma RunExtend(v: Server, es: seq<Event>, e: Event, verify: Verifier)
    requires ValidRun(v, es, verify) && Enabled(Run(v, es, verify), e)
    ensures ValidRun(v, es + [e], verify)
    ensures Run(v, es + [e], verify) == Step(Run(v, es, verify), e, verify)
  {
    var w := Run(v, es, verify);
    assert ValidRun(Step(w, e, verify), [e][1..], verify);
    assert ValidRun(w, [e], verify) && Run(w, [e], verify) == Step(w, e, verify);
    RunConcat(v, es, [e], verify);
  }

  /** What a step does to the ring: a packet is accepted, a packet is flushed, or nothing. */
  lemma StepRing(v: Server, e: Event, verify: Verifier)
    requires Enabled(v, e)
    ensures Step(v, e, verify).ring ==
            if e.Data? then Accept(v.ring, e.seqNo, e.data)
            else if e.Flush? then FlushOne(v.ring)
            else v.ring
    ensures v.out <= Step(v, e, verify).out
  {
  }

  /** The two frontiers: flush frontier <= receive frontier <= count, the receive frontier is the least
      unreceived packet, and neither frontier, no received mark and no written byte is ever taken back. */
  ghost predicate Grows(t: Ring, u: Ring) {
    && |t.flags| == |u.flags| && t.window <= u.window && t.next <= u.next && t.disk <= u.disk
    && (forall s :: 0 <= s < |t.flags| && t.flags[s] ==> u.flags[s])
  }

  lemma StepFrontier(v: Server, e: Event, verify: Verifier)
    requires v.ring.Frontier() && Enabled(v, e)
    ensures Step(v, e, verify).ring.Frontier()
    ensures Grows(v.ring, Step(v, e, verify).ring)
  {
    StepRing(v, e, verify);
  }

  lemma {:induction false} FrontiersInEveryRun(v: Server, es: seq<Event>, verify: Verifier)
    requires v.ring.Frontier() && ValidRun(v, es, verify)
    ensures Run(v, es, verify).ring.Frontier()
    ensures Grows(v.ring, Run(v, es, verify).ring)
    ensures v.out <= Run(v, es, verify).out
    decreases |es|
  {
    if es != [] {
      StepRing(v, es[0], verify);
      StepFrontier(v, es[0], verify);
      FrontiersInEveryRun(Step(v, es[0], verify), es[1..], verify);
    }
  }

  lemma StartFrontier(total: nat, last: nat)
    requires total > 0
    ensures Start(total, last).ring.Frontier()
  {
  }

  /** In every run of an upload, whatever the packets carry: flush frontier <= receive frontier <= count, the
      receive frontier is the least unreceived packet, the flush is finished exactly when it has reached the count,
      and the stored gap list is the one asked for last. */
  lemma InEveryRun(total: nat, last: nat, es: seq<Event>, verify: Verifier)
    requires total > 0 && ValidRun(Start(total, last), es, verify)
    ensures var v := Run(Start(total, last), es, verify);
            v.ring.Frontier() && |v.ring.flags| == total && v.missingSeqs == LatestRequest(v.out)
  {
    StartFrontier(total, last);
    FrontiersInEveryRun(Start(total, last), es, verify);
    MissingSeqsIsLatestRequest(Start(total, last), es, verify);
  }

  function Flushes(n: nat): seq<Event> { seq(n, _ => Flush) }

  lemma FlushesOneMore(v: Server, n: nat, w: Server, x: Server, verify: Verifier)
    requires ValidRun(v, Flushes(n), verify) && Run(v, Flushes(n), verify) == w
    requires Enabled(w, Flush) && Step(w, Flush, verify) == x
    ensures ValidRun(v, Flushes(n + 1), verify) && Run(v, Flushes(n + 1), verify) == x
  {
    RunExtend(v, Flushes(n), Flush, verify);
    assert Flushes(n) + [Flush] == Flushes(n + 1);
  }

  lemma FlushStep(v: Server, n: nat, verify: Verifier)
    requires v.ring.Frontier() && v.ring.next < n <= v.ring.window && v.flusher.Looking?
    ensures Enabled(FlushedOn(v, n - 1), Flush) && Step(FlushedOn(v, n - 1), Flush, verify) == FlushedOn(v, n)
  {
    FlushedOneMore(v, n);
  }

  /** Left alone, a flusher that is awake can catch up to any packet below the receive frontier. */
  lemma {:induction false} FlusherCatchesUp(v: Server, n: nat, verify: Verifier)
    requires v.ring.Frontier() && v.ring.next <= n <= v.ring.window && v.flusher.Looking?
    ensures ValidRun(v, Flushes(n - v.ring.next), verify)
    ensures Run(v, Flushes(n - v.ring.next), verify) == FlushedOn(v, n)
    decreases n
  {
    if n == v.ring.next {
      FlushedOnItself(v);
    } else {
      FlusherCatchesUp(v, n - 1, verify);
      FlushStep(v, n, verify);
      FlushesOneMore(v, n - 1 - v.ring.next, FlushedOn(v, n - 1), FlushedOn(v, n), verify);
    }
  }

  /** No packet is accepted in the run, and nothing wakes up spuriously. */
  ghost predicate Unfed(v: Server, es: seq<Event>, verify: Verifier)
    requires ValidRun(v, es, verify)
    decreases |es|
  {
    es == []
    || (!(es[0].Data? && Admits(v.ring, es[0].seqNo)) && !Spurious(es[0])
        && Unfed(Step(v, es[0], verify), es[1..], verify))
  }

  /** A flusher that is not awake stays so, whatever else happens, and the ring stays as it is. */
  lemma {:induction false} SleeperStays(v: Server, es: seq<Event>, verify: Verifier)
    requires ValidRun(v, es, verify) && Unfed(v, es, verify) && !v.flusher.Looking?
    ensures Run(v, es, verify).ring == v.ring && !Run(v, es, verify).flusher.Looking?
    decreases |es|
  {
    if es != [] {
      SleeperStays(Step(v, es[0], verify), es[1..], verify);
    }
  }

  lemma {:induction false} FlushesUnfed(v: Server, n: nat, verify: Verifier)
    requires ValidRun(v, Flushes(n), verify)
    ensures Unfed(v, Flushes(n), verify)
    decreases n
  {
    if n > 0 {
      assert Flushes(n)[1..] == Flushes(n - 1);
      FlushesUnfed(Step(v, Flush, verify), n - 1, verify);
    }
  }

  /** Nothing wakes up spuriously. */
  predicate Steady(es: seq<Event>) {
    forall i :: 0 <= i < |es| ==> !Spurious(es[i])
  }

  /** Once everything is received no packet is accepted any more. */
  lemma {:induction false} AllReceivedUnfed(v: Server, es: seq<Event>, verify: Verifier)
    requires v.ring.Frontier() && v.ring.window == |v.ring.flags| && ValidRun(v, es, verify) && Steady(es)
    ensures Unfed(v, es, verify)
    decreases |es|
  {
    if es != [] {
      StepFrontier(v, es[0], verify);
      AllReceivedUnfed(Step(v, es[0], verify), es[1..], verify);
    }
  }

  /** Everything is received but not flushed, and the flusher is not awake: its last notification came too early. */
  ghost predicate Stranded(v: Server) {
    v.ring.window == |v.ring.flags| && !v.ring.flushed && !v.flusher.Looking?
  }

  ghost predicate CanWrite(v: Server, n: nat, verify: Verifier) {
    exists es :: ValidRun(v, es, verify) && Unfed(v, es, verify) && Run(v, es, verify).ring.next >= n
  }

  /** Without another accepted packet and without spurious wakeups, received packets get written if and only if the
      flusher is awake. */
  lemma WritesExactly(v: Server, n: nat, verify: Verifier)
    requires v.ring.Frontier() && v.ring.next < n <= v.ring.window
    ensures CanWrite(v, n, verify) <==> v.flusher.Looking?
  {
    if v.flusher.Looking? {
      FlusherCatchesUp(v, n, verify);
      FlushesUnfed(v, n - v.ring.next, verify);
    } else {
      forall es | ValidRun(v, es, verify) && Unfed(v, es, verify)
        ensures Run(v, es, verify).ring.next < n
      {
        SleeperStays(v, es, verify);
      }
    }
  }

  lemma {:induction false} BlockedStay(v: Server, es: seq<Event>, verify: Verifier)
    requires v.ring.Frontier() && v.ring.flushed && ValidRun(v, es, verify) && Steady(es)
    ensures Run(v, es, verify).blocked == v.blocked
    decreases |es|
  {
    if es != [] {
      StepFrontier(v, es[0], verify);
      BlockedStay(Step(v, es[0], verify), es[1..], verify);
    }
  }

  /** The end of the flush wakes one blocked check: without spurious wakeups all others stay blocked forever. */
  lemma OneIsWoken(v: Server, es: seq<Event>, verify: Verifier)
    requires v.ring.Frontier() && Enabled(v, Flush) && v.ring.next + 1 == |v.ring.flags|
    requires ValidRun(Step(v, Flush, verify), es, verify) && Steady(es)
    ensures var w := Step(v, Flush, verify);
            && w.waiting == v.waiting + (if v.blocked > 0 then 1 else 0)
            && Run(w, es, verify).blocked == if v.blocked > 0 then v.blocked - 1 else 0
  {
    StepFrontier(v, Flush, verify);
    BlockedStay(Step(v, Flush, verify), es, verify);
  }

  /** The list of the latest request, or nothing. */
  function LatestRequest(out: seq<ServerMsg>): seq<nat> {
    if out == [] then []
    else if out[|out| - 1].TellLostBag? then out[|out| - 1].missing
    else LatestRequest(out[..|out| - 1])
  }

  lemma LatestOfOneMore(out: seq<ServerMsg>, m: ServerMsg)
    ensures LatestRequest(out + [m]) == if m.TellLostBag? then m.missing else LatestRequest(out)
  {
    assert (out + [m])[..|out|] == out;
  }

  lemma StepKeepsLatestRequest(v: Server, e: Event, verify: Verifier)
    requires v.missingSeqs == LatestRequest(v.out) && Enabled(v, e)
    ensures Step(v, e, verify).missingSeqs == LatestRequest(Step(v, e, verify).out)
  {
    var w := Step(v, e, verify);
    if |w.out| == |v.out| + 1 {
      LatestOfOneMore(v.out, w.out[|v.out|]);
    }
  }

  /** m_MissingSeqs always holds the list of the latest request sent. */
  lemma {:induction false} MissingSeqsIsLatestRequest(v: Server, es: seq<Event>, verify: Verifier)
    requires v.missingSeqs == LatestRequest(v.out) && ValidRun(v, es, verify)
    ensures Run(v, es, verify).missingSeqs == LatestRequest(Run(v, es, verify).out)
    decreases |es|
  {
    if es != [] {
      StepKeepsLatestRequest(v, es[0], verify);
      MissingSeqsIsLatestRequest(Step(v, es[0], verify), es[1..], verify);
    }
  }
}
