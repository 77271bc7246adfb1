/** Gaps, replays and completion. */
module Recovery {
  import opened Streams
  import opened Packets
  import opened Transfer
  import opened Runs
  import opened Integrity

  /** The last accepted packet is a received packet below the window's upper end. Holds from the first
      acceptance on; before it m_LastReceivedSeq is unset. */
  ghost predicate LastKnown(t: Ring) {
    t.last < |t.flags| && t.flags[t.last] && t.last < t.window + WINDOW_SIZE
  }

  lemma LastKnownFromFirstAcceptance(v: Server, e: Event, verify: Verifier)
    requires v.ring.Frontier() && Enabled(v, e)
    requires LastKnown(v.ring) || (e.Data? && Admits(v.ring, e.seqNo))
    ensures LastKnown(Step(v, e, verify).ring)
  {
  }

  ghost predicate Delivers(es: seq<Event>, s: nat) {
    exists i :: 0 <= i < |es| && es[i].Data? && es[i].seqNo == s
  }

  /** A packet below the window's upper end is received once it is delivered, whatever else happens. */
  lemma {:induction false} DeliveredIsReceived(v: Server, es: seq<Event>, s: nat, verify: Verifier)
    requires v.ring.Frontier() && ValidRun(v, es, verify)
    requires s < v.ring.window + WINDOW_SIZE && s < |v.ring.flags| && Delivers(es, s)
    ensures |Run(v, es, verify).ring.flags| == |v.ring.flags| && Run(v, es, verify).ring.flags[s]
    decreases |es|
  {
    var e, w := es[0], Step(v, es[0], verify);
    StepFrontier(v, e, verify);
    StepRing(v, e, verify);
    if e.Data? && e.seqNo == s {
      FrontiersInEveryRun(w, es[1..], verify);
    } else {
      var i :| 0 <= i < |es| && es[i].Data? && es[i].seqNo == s;
      assert es[1..][i - 1] == es[i];
      DeliveredIsReceived(w, es[1..], s, verify);
    }
  }

  function CountUnreceived(flags: seq<bool>): nat {
    |Unreceived(flags, 0, |flags|)|
  }

  lemma {:induction false} UnreceivedShrinks(before: seq<bool>, after: seq<bool>, lo: nat, hi: nat, n: nat)
    requires |before| == |after| && hi <= |before| && n <= |before|
    requires forall s :: 0 <= s < |before| && before[s] ==> after[s]
    requires forall s :: lo <= s < hi ==> after[s]
    ensures |Unreceived(after, 0, n)| + |Unreceived(before, lo, Min(hi, n))| <= |Unreceived(before, 0, n)|
  {
    if n > 0 {
      UnreceivedShrinks(before, after, lo, hi, n - 1);
    }
  }

  lemma AskedIsReceived(v: Server, es: seq<Event>, s: nat, verify: Verifier)
    requires v.ring.Frontier() && LastKnown(v.ring) && ValidRun(v, es, verify) && s <= v.ring.last
    requires s in Missing(v.ring) ==> Delivers(es, s)
    ensures var t := Run(v, es, verify).ring; s < |t.flags| && t.flags[s]
  {
    FrontiersInEveryRun(v, es, verify);
    GapReportedExactly(v.ring);
    if s in Missing(v.ring) {
      DeliveredIsReceived(v, es, s, verify);
    }
  }

  /** A replay round closes every gap it was asked for, whatever is interleaved with it: afterwards everything
      up to the last packet accepted before the round is received, and at least as many packets as were asked
      for have left the set of unreceived ones. */
  lemma ReplayClosesGaps(v: Server, es: seq<Event>, verify: Verifier)
    requires v.ring.Frontier() && LastKnown(v.ring) && ValidRun(v, es, verify)
    requires forall s :: s in Missing(v.ring) ==> Delivers(es, s)
    ensures var t := Run(v, es, verify).ring;
            && |t.flags| == |v.ring.flags|
            && t.window > v.ring.last
            && CountUnreceived(t.flags) + |Missing(v.ring)| <= CountUnreceived(v.ring.flags)
  {
    var t := Run(v, es, verify).ring;
    FrontiersInEveryRun(v, es, verify);
    forall s | 0 <= s <= v.ring.last
      ensures t.flags[s]
    {
      AskedIsReceived(v, es, s, verify);
    }
    UnreceivedShrinks(v.ring.flags, t.flags, v.ring.window, v.ring.last, |t.flags|);
  }

  lemma AllReceivedNothingMissing(t: Ring)
    requires t.Frontier() && t.window == |t.flags|
    ensures Missing(t) == []
  {
  }

  /** If the last packet accepted before the round was the last of the file, one round is enough: everything
      is received and no check finds a gap any more. */
  lemma OneRoundSuffices(v: Server, es: seq<Event>, verify: Verifier)
    requires v.ring.Frontier() && LastKnown(v.ring) && v.ring.last == |v.ring.flags| - 1
    requires ValidRun(v, es, verify) && forall s :: s in Missing(v.ring) ==> Delivers(es, s)
    ensures var t := Run(v, es, verify).ring; t.window == |t.flags| && Missing(t) == []
  {
    ReplayClosesGaps(v, es, verify);
    FrontiersInEveryRun(v, es, verify);
    AllReceivedNothingMissing(Run(v, es, verify).ring);
  }

  function FlushTurns(es: seq<Event>): nat {
    if es == [] then 0 else (if es[0].Flush? then 1 else 0) + FlushTurns(es[1..])
  }

  ghost predicate NothingAsked(out: seq<ServerMsg>, more: seq<ServerMsg>) {
    out <= more && forall i :: |out| <= i < |more| ==> !more[i].TellLostBag?
  }

  /** Once everything is received no run asks for anything again, every flusher turn brings the flush frontier one
      packet nearer to the end, and until it gets there a turn is possible exactly if the flusher was awake, spurious
      wakeups apart. */
  lemma {:induction false} AllReceivedOnlyFlushes(v: Server, es: seq<Event>, verify: Verifier)
    requires v.ring.Frontier() && v.ring.window == |v.ring.flags| && ValidRun(v, es, verify)
    ensures var w := Run(v, es, verify);
            && NothingAsked(v.out, w.out)
            && w.ring.next == v.ring.next + FlushTurns(es)
            && (v.flusher.Looking? ==> w.flusher.Looking?)
            && (Steady(es) ==> (Enabled(w, Flush) <==> !w.ring.flushed && v.flusher.Looking?))
    decreases |es|
  {
    if es != [] {
      var w := Step(v, es[0], verify);
      StepRing(v, es[0], verify);
      StepFrontier(v, es[0], verify);
      AllReceivedNothingMissing(v.ring);
      AllReceivedNothingMissing(w.ring);
      assert NothingAsked(v.out, w.out) && (v.flusher.Looking? ==> w.flusher.Looking?);
      assert Steady(es) ==> !Spurious(es[0]) && (w.flusher.Looking? ==> v.flusher.Looking?);
      AllReceivedOnlyFlushes(w, es[1..], verify);
    }
  }

  /** Without a spurious wakeup a stranded upload never completes. */
  lemma StrandedForever(v: Server, es: seq<Event>, verify: Verifier)
    requires v.ring.Frontier() && Live(v) && Stranded(v) && ValidRun(v, es, verify) && Steady(es)
    ensures Live(Run(v, es, verify)) && Run(v, es, verify).ring == v.ring
  {
    AllReceivedUnfed(v, es, verify);
    SleeperStays(v, es, verify);
    CompleteOnlyWhenVerified(v, es, verify);
  }

  /** Every honest replay of the reported gaps, interleaved with anything within the lag, leads to completion unless
      it leaves the upload stranded: after ReTransLostBagFinished a check finds nothing missing, the flusher alone
      finishes the file, and the check then sends FileComplete over a saved file equal to the source. */
  lemma ReplayLeadsToCompletion(file: seq<Byte>, v: Server, es: seq<Event>, verify: Verifier) returns (rest: seq<Event>)
    requires Faithful(file, v.ring) && WithinLag(v.ring) && LastKnown(v.ring)
    requires v.ring.last == |v.ring.flags| - 1 && v.finalAccepted && verify(file)
    requires HonestRun(file, v, es, verify) && LaggedRun(v, es, verify) && Live(Run(v, es, verify))
    requires forall s :: s in Missing(v.ring) ==> Delivers(es, s)
    ensures var w := Run(v, es, verify);
            && w.ring.next <= |w.ring.flags|
            && rest == [ReCheck, Check] + Flushes(|w.ring.flags| - w.ring.next) + [Wake]
            && (!Stranded(w) ==>
                  && ValidRun(w, rest, verify)
                  && NothingAsked(w.out, Run(w, rest, verify).out)
                  && FileComplete in Run(w, rest, verify).out
                  && Run(w, rest, verify).ring.disk == file)
            && (Stranded(w) ==> forall more :: ValidRun(w, more, verify) && Steady(more) ==> Live(Run(w, more, verify)))
  {
    var w := Run(v, es, verify);
    OneRoundSuffices(v, es, verify);
    LaggedRunFaithful(file, v, es, verify);
    FinalAcceptedStays(v, es, verify);
    rest := [ReCheck, Check] + Flushes(|w.ring.flags| - w.ring.next) + [Wake];
    if Stranded(w) {
      forall more | ValidRun(w, more, verify) && Steady(more)
        ensures Live(Run(w, more, verify))
      {
        StrandedForever(w, more, verify);
      }
    } else {
      FinishesFromAllReceived(file, w, verify);
    }
  }

  lemma {:induction false} FinalAcceptedStays(v: Server, es: seq<Event>, verify: Verifier)
    requires v.finalAccepted && ValidRun(v, es, verify)
    ensures Run(v, es, verify).finalAccepted
    decreases |es|
  {
    if es != [] {
      FinalAcceptedStays(Step(v, es[0], verify), es[1..], verify);
    }
  }

  /** With everything received the remaining flusher turns put the source on disk. */
  lemma FlushesToSource(file: seq<Byte>, t: Ring)
    requires Faithful(file, t) && t.window == |t.flags|
    ensures FlushedTo(t, |t.flags|).disk == file
  {
    DrainedExact(file, t.slots, t.next, |t.flags|);
    PrefixAll(file, |t.flags|);
  }

  lemma FlushesToEnd(v: Server, verify: Verifier)
    requires v.ring.Frontier() && v.ring.window == |v.ring.flags| && !Stranded(v)
    ensures var es := Flushes(|v.ring.flags| - v.ring.next);
            ValidRun(v, es, verify) && Run(v, es, verify) == FlushedOn(v, |v.ring.flags|)
  {
    if v.flusher.Looking? {
      FlusherCatchesUp(v, |v.ring.flags|, verify);
    } else {
      FlushedOnItself(v);
    }
  }

  /** What replay-done, the check it starts and the remaining flusher turns lead to. */
  lemma CheckedAndFlushed(w: Server, verify: Verifier)
    requires w.ring.Frontier() && w.ring.window == |w.ring.flags| && Live(w) && w.finalAccepted && !Stranded(w)
    ensures var es := [ReCheck, Check] + Flushes(|w.ring.flags| - w.ring.next);
            && ValidRun(w, es, verify)
            && var x := Run(w, es, verify);
               && x.waiting > 0 && x.out == w.out && x.ring == FlushedTo(w.ring, |w.ring.flags|)
  {
    AllReceivedNothingMissing(w.ring);
    var y, flushes := Step(w, ReCheck, verify), Flushes(|w.ring.flags| - w.ring.next);
    var x, es := Step(y, Check, verify), [ReCheck, Check] + flushes;
    FlushesToEnd(x, verify);
    assert es[0] == ReCheck && es[1..] == [Check] + flushes && es[1..][0] == Check && es[1..][1..] == flushes;
    assert FlushedOn(x, |w.ring.flags|).waiting > 0;
  }

  lemma FinishesFromAllReceived(file: seq<Byte>, w: Server, verify: Verifier)
    requires Faithful(file, w.ring) && w.ring.window == |w.ring.flags| && Live(w) && w.finalAccepted && verify(file)
    requires !Stranded(w)
    ensures var rest := [ReCheck, Check] + Flushes(|w.ring.flags| - w.ring.next) + [Wake];
            && ValidRun(w, rest, verify)
            && NothingAsked(w.out, Run(w, rest, verify).out)
            && FileComplete in Run(w, rest, verify).out
            && Run(w, rest, verify).ring.disk == file
  {
    var es := [ReCheck, Check] + Flushes(|w.ring.flags| - w.ring.next);
    CheckedAndFlushed(w, verify);
    FlushesToSource(file, w.ring);
    RunExtend(w, es, Wake, verify);
    var z := Run(w, es + [Wake], verify);
    assert z.out == w.out + [FileComplete] && z.out[|w.out|] == FileComplete;
  }

  lemma {:induction false} DrainedExact(file: seq<Byte>, slots: seq<seq<Byte>>, a: nat, b: nat)
    requires |slots| == WINDOW_SIZE && a <= b && forall s :: a <= s < b ==> slots[Slot(s)] == Block(file, s)
    ensures Prefix(file, a) + Drained(slots, a, b) == Prefix(file, b)
  {
    if a < b {
      DrainedExact(file, slots, a, b - 1);
      PrefixExtend(file, b - 1);
      ConcatAssociates(Prefix(file, a), Drained(slots, a, b - 1), slots[Slot(b - 1)]);
    } else {
      assert Prefix(file, a) + [] == Prefix(file, a);
    }
  }

  /** FileComplete is sent only over a completely received, completely flushed file whose digest is the
      declared one; nothing is assumed about what the packets carry. */
  ghost predicate Answered(v: Server, verify: Verifier) {
    FileComplete in v.out ==> v.ring.flushed && v.ring.window == |v.ring.flags| && verify(v.ring.disk)
  }

  lemma StepAnswered(v: Server, e: Event, verify: Verifier)
    requires v.ring.Frontier() && Answered(v, verify) && Enabled(v, e)
    ensures Answered(Step(v, e, verify), verify)
  {
    StepFrontier(v, e, verify);
    StepRing(v, e, verify);
  }

  lemma {:induction false} CompleteOnlyWhenVerified(v: Server, es: seq<Event>, verify: Verifier)
    requires v.ring.Frontier() && Answered(v, verify) && ValidRun(v, es, verify)
    ensures Answered(Run(v, es, verify), verify)
    decreases |es|
  {
    if es != [] {
      StepFrontier(v, es[0], verify);
      StepAnswered(v, es[0], verify);
      CompleteOnlyWhenVerified(Step(v, es[0], verify), es[1..], verify);
    }
  }

  /** From the start of an upload whose declared digest is the source's: within the lag no answer is ever
      RequestVerify, and FileComplete means the saved file is the source. */
  lemma OutcomeIsTruthful(file: seq<Byte>, last: nat, es: seq<Event>, verify: Verifier)
    requires |file| > 0 && verify(file)
    requires HonestRun(file, Start(TotalPackets(|file|), last), es, verify)
    requires LaggedRun(Start(TotalPackets(|file|), last), es, verify)
    ensures var w := Run(Start(TotalPackets(|file|), last), es, verify);
            RequestVerify !in w.out && (FileComplete in w.out ==> w.ring.disk == file)
  {
    var start := Start(TotalPackets(|file|), last);
    StartFaithful(file, last);
    CompleteOnlyWhenVerified(start, es, verify);
    LaggedRunFaithful(file, start, es, verify);
    NeverRequestsVerify(file, start, es, verify);
  }

  lemma {:induction false} NeverRequestsVerify(file: seq<Byte>, v: Server, es: seq<Event>, verify: Verifier)
    requires Faithful(file, v.ring) && WithinLag(v.ring) && verify(file) && RequestVerify !in v.out
    requires HonestRun(file, v, es, verify) && LaggedRun(v, es, verify)
    ensures RequestVerify !in Run(v, es, verify).out
    decreases |es|
  {
    if es != [] {
      PrefixAll(file, TotalPackets(|file|));
      StepKeepsFaithful(file, v, es[0], verify);
      NeverRequestsVerify(file, Step(v, es[0], verify), es[1..], verify);
    }
  }
}
