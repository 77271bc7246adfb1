/** After the client has streamed its file it sends data only on request. Which uploads can then still complete? */
module Completion {
  import opened Streams
  import opened Packets
  import opened Transfer
  import opened Runs
  import opened Integrity
  import opened Recovery

  /** `s` was asked for in a message sent at position `base` or later. */
  ghost predicate Asked(out: seq<ServerMsg>, base: nat, s: nat) {
    exists i :: base <= i < |out| && out[i].TellLostBag? && s in out[i].missing
  }

  /** The number of requests in `out`. */
  function Requests(out: seq<ServerMsg>): nat {
    if out == [] then 0 else Requests(out[..|out| - 1]) + if out[|out| - 1].TellLostBag? then 1 else 0
  }

  /** Replay-done messages handled, after one more event. */
  function After(done: nat, e: Event): nat {
    done + if e.ReCheck? then 1 else 0
  }

  function ReChecks(es: seq<Event>): nat {
    if es == [] then 0 else After(ReChecks(es[1..]), es[0])
  }

  /** What a client that has finished streaming can bring about, with the flusher and the checks: data it was asked
      for since `base`, FileFinish once, and one replay-done for each request since `base`, of which `done` have
      come already. */
  ghost predicate ClosedStep(file: seq<Byte>, v: Server, e: Event, base: nat, done: nat) {
    && Enabled(v, e) && Honest(file, e) && !Spurious(e)
    && (e.Data? ==> Asked(v.out, base, e.seqNo))
    && (e.Finish? ==> !v.finalAccepted)
    && (e.ReCheck? ==> base <= |v.out| && done < Requests(v.out[base..]))
  }

  ghost predicate OnlyAnswers(file: seq<Byte>, v: Server, es: seq<Event>, base: nat, done: nat, verify: Verifier)
    decreases |es|
  {
    es == []
    || (ClosedStep(file, v, es[0], base, done)
        && OnlyAnswers(file, Step(v, es[0], verify), es[1..], base, After(done, es[0]), verify))
  }

  /** A run in which the client only answers. */
  ghost predicate ClosedRun(file: seq<Byte>, v: Server, es: seq<Event>, base: nat, done: nat, verify: Verifier) {
    ValidRun(v, es, verify) && OnlyAnswers(file, v, es, base, done, verify)
  }

  lemma {:induction false} ReChecksConcat(es: seq<Event>, more: seq<Event>)
    ensures ReChecks(es + more) == ReChecks(es) + ReChecks(more)
  {
    if es == [] {
      assert es + more == more;
    } else {
      ReChecksConcat(es[1..], more);
      assert (es + more)[0] == es[0] && (es + more)[1..] == es[1..] + more;
    }
  }

  lemma {:induction false} AnswersConcat(
      file: seq<Byte>, v: Server, es: seq<Event>, end: Server, more: seq<Event>,
      base: nat, done: nat, total: nat, verify: Verifier)
    requires ValidRun(v, es, verify) && OnlyAnswers(file, v, es, base, done, verify)
    requires end == Run(v, es, verify) && total == done + ReChecks(es)
    requires OnlyAnswers(file, end, more, base, total, verify)
    ensures OnlyAnswers(file, v, es + more, base, done, verify)
    decreases |es|
  {
    if es == [] {
      assert es + more == more;
    } else {
      AnswersConcat(
        file, Step(v, es[0], verify), es[1..], end, more, base, After(done, es[0]), total, verify);
      assert (es + more)[0] == es[0] && (es + more)[1..] == es[1..] + more;
    }
  }

  lemma ClosedConcat(
      file: seq<Byte>, v: Server, es: seq<Event>, more: seq<Event>, base: nat, done: nat, verify: Verifier)
    requires ClosedRun(file, v, es, base, done, verify)
    requires ClosedRun(file, Run(v, es, verify), more, base, done + ReChecks(es), verify)
    ensures ClosedRun(file, v, es + more, base, done, verify)
    ensures Run(v, es + more, verify) == Run(Run(v, es, verify), more, verify)
    ensures ReChecks(es + more) == ReChecks(es) + ReChecks(more)
  {
    RunConcat(v, es, more, verify);
    ReChecksConcat(es, more);
    AnswersConcat(file, v, es, Run(v, es, verify), more, base, done, done + ReChecks(es), verify);
  }

  lemma ClosedExtend(
      file: seq<Byte>, v: Server, es: seq<Event>, e: Event, base: nat, done: nat, verify: Verifier)
    requires ClosedRun(file, v, es, base, done, verify)
    requires ClosedStep(file, Run(v, es, verify), e, base, done + ReChecks(es))
    ensures ClosedRun(file, v, es + [e], base, done, verify)
    ensures Run(v, es + [e], verify) == Step(Run(v, es, verify), e, verify)
    ensures ReChecks(es + [e]) == ReChecks(es) + if e.ReCheck? then 1 else 0
  {
    var w := Run(v, es, verify);
    assert [e][1..] == [] && ReChecks([e]) == After(ReChecks([e][1..]), e);
    assert ValidRun(Step(w, e, verify), [e][1..], verify);
    assert ValidRun(w, [e], verify) && Run(w, [e], verify) == Step(w, e, verify);
    assert OnlyAnswers(file, Step(w, e, verify), [e][1..], base, After(done + ReChecks(es), e), verify);
    ClosedConcat(file, v, es, [e], base, done, verify);
  }

  // ----- what can never complete -----

  /** Packet `u` is unreceived, lies above the last accepted packet and above everything asked for. */
  ghost predicate Stalled(v: Server, u: nat, base: nat) {
    && v.ring.Frontier() && Live(v)
    && u < |v.ring.flags| && !v.ring.flags[u] && v.ring.last < u
    && forall i, s :: base <= i < |v.out| && v.out[i].TellLostBag? && s in v.out[i].missing ==> s < u
  }

  lemma StepStaysStalled(file: seq<Byte>, v: Server, e: Event, u: nat, base: nat, done: nat, verify: Verifier)
    requires Stalled(v, u, base) && ClosedStep(file, v, e, base, done)
    ensures Stalled(Step(v, e, verify), u, base)
  {
    var w := Step(v, e, verify);
    StepRing(v, e, verify);
    StepFrontier(v, e, verify);
    GapReportedExactly(v.ring);
    GapReportedExactly(w.ring);
    assert !w.ring.flags[u] && w.ring.last < u;
    forall i, s | base <= i < |w.out| && w.out[i].TellLostBag? && s in w.out[i].missing
      ensures s < u
    {
      if i < |v.out| {
        assert w.out[i] == v.out[i];
      } else {
        assert w.out[i].missing == Missing(w.ring);
      }
    }
  }

  /** Such a packet is never received: the upload waits for it forever. */
  lemma {:induction false} StalledForever(
      file: seq<Byte>, v: Server, es: seq<Event>, u: nat, base: nat, done: nat, verify: Verifier)
    requires Stalled(v, u, base) && ClosedRun(file, v, es, base, done, verify)
    ensures Stalled(Run(v, es, verify), u, base)
    decreases |es|
  {
    if es != [] {
      StepStaysStalled(file, v, es[0], u, base, done, verify);
      StalledForever(file, Step(v, es[0], verify), es[1..], u, base, After(done, es[0]), verify);
    }
  }

  /** FileFinish has come, no check is about to look for gaps, and nothing is asked: `w` differs from `v` by steps of
      the flusher and of checks only. */
  ghost predicate Quiet(v: Server, w: Server, base: nat) {
    && w.finalAccepted && w.starting == 0 && w.ring.Frontier() && w.ring.flags == v.ring.flags
    && (Checking(w) ==> Checking(v))
    && base <= |w.out| && (forall i :: base <= i < |w.out| ==> !w.out[i].TellLostBag?)
    && (FileComplete in w.out ==> Checking(v) && w.ring.window == |w.ring.flags|)
  }

  lemma {:induction false} NoRequests(out: seq<ServerMsg>)
    requires forall i :: 0 <= i < |out| ==> !out[i].TellLostBag?
    ensures Requests(out) == 0
  {
    if out != [] {
      NoRequests(out[..|out| - 1]);
    }
  }

  lemma {:induction false} QuietForever(
      file: seq<Byte>, v: Server, w: Server, es: seq<Event>, base: nat, verify: Verifier)
    requires Quiet(v, w, base) && ClosedRun(file, w, es, base, 0, verify)
    ensures Quiet(v, Run(w, es, verify), base)
    decreases |es|
  {
    if es != [] {
      NoRequests(w.out[base..]);
      StepFrontier(w, es[0], verify);
      assert !es[0].Data? && !es[0].Finish? && !es[0].ReCheck?;
      QuietForever(file, v, Step(w, es[0], verify), es[1..], base, verify);
    }
  }

  // ----- what can -----

  /** Everything the completing run relies on while it is being built. */
  ghost predicate OnTrack(file: seq<Byte>, v: Server) {
    Faithful(file, v.ring) && WithinLag(v.ring) && Live(v)
  }

  /** Flusher turns are always open to a client that only answers. */
  lemma {:induction false} FlushesClosed(
      file: seq<Byte>, v: Server, n: nat, base: nat, done: nat, verify: Verifier)
    requires OnTrack(file, v) && ValidRun(v, Flushes(n), verify)
    ensures ClosedRun(file, v, Flushes(n), base, done, verify) && ReChecks(Flushes(n)) == 0
    ensures OnTrack(file, Run(v, Flushes(n), verify))
    decreases n
  {
    if n > 0 {
      assert Flushes(n)[1..] == Flushes(n - 1);
      StepKeepsFaithful(file, v, Flush, verify);
      FlushesClosed(file, Step(v, Flush, verify), n - 1, base, done, verify);
    }
  }

  /** What answering keeps, beside the flusher's position. */
  ghost predicate Answering(file: seq<Byte>, v: Server, w: Server) {
    && OnTrack(file, w) && w.ring.next == v.ring.next && |w.ring.flags| == |v.ring.flags|
    && v.out <= w.out && w.finalAccepted == v.finalAccepted && !w.flusher.AboutToWait?
  }

  lemma AnswerOne(file: seq<Byte>, v: Server, w: Server, s: nat, base: nat, done: nat, verify: Verifier)
    requires Answering(file, v, w) && Asked(v.out, base, s)
    requires s < v.ring.next + WINDOW_SIZE && s < |v.ring.flags|
    ensures var e := Data(s, Block(file, s));
            && ClosedStep(file, w, e, base, done) && Answering(file, v, Step(w, e, verify))
            && (w.flusher.Looking? || s == w.ring.window ==> Step(w, e, verify).flusher.Looking?)
  {
    var e := Data(s, Block(file, s));
    AskedStays(v.out, w.out, base, s);
    StepKeepsFaithful(file, w, e, verify);
    StepRing(w, e, verify);
  }

  /** Answer the first `k` numbers of a request, in order. */
  lemma {:induction false} Answer(
      file: seq<Byte>, v: Server, missing: seq<nat>, k: nat, base: nat, done: nat, verify: Verifier)
      returns (es: seq<Event>)
    requires OnTrack(file, v) && !v.flusher.AboutToWait? && k <= |missing|
    requires forall i :: 0 <= i < |missing| ==>
               && missing[i] < v.ring.next + WINDOW_SIZE && missing[i] < |v.ring.flags|
               && Asked(v.out, base, missing[i])
    ensures ClosedRun(file, v, es, base, done, verify) && ReChecks(es) == 0
    ensures var w := Run(v, es, verify);
            && Answering(file, v, w)
            && (k > 0 && missing[0] == v.ring.window ==> w.flusher.Looking?)
    ensures |es| == k && forall i :: 0 <= i < k ==> es[i] == Data(missing[i], Block(file, missing[i]))
    decreases k
  {
    es := [];
    if k > 0 {
      es := Answer(file, v, missing, k - 1, base, done, verify);
      var w := Run(v, es, verify);
      var e := Data(missing[k - 1], Block(file, missing[k - 1]));
      AnswerOne(file, v, w, missing[k - 1], base, done, verify);
      ClosedExtend(file, v, es, e, base, done, verify);
      es := es + [e];
    }
  }

  lemma AskedStays(out: seq<ServerMsg>, more: seq<ServerMsg>, base: nat, s: nat)
    requires out <= more && Asked(out, base, s)
    ensures Asked(more, base, s)
  {
  }

  /** With everything flushed the check goes on to its answer. */
  lemma CompleteFlushed(file: seq<Byte>, v: Server, base: nat, done: nat, verify: Verifier)
    requires OnTrack(file, v) && v.ring.flushed && v.waiting > 0 && verify(file)
    ensures ClosedRun(file, v, [Wake], base, done, verify)
    ensures Run(v, [Wake], verify).out == v.out + [FileComplete]
  {
    PrefixAll(file, v.ring.next);
    assert ClosedRun(file, v, [], base, done, verify) && Run(v, [], verify) == v;
    ClosedExtend(file, v, [], Wake, base, done, verify);
    assert [] + [Wake] == [Wake];
  }

  /** Flush what is left: the check is on its way. */
  lemma FlushForCheck(file: seq<Byte>, v: Server, base: nat, done: nat, verify: Verifier) returns (es: seq<Event>)
    requires OnTrack(file, v) && v.ring.window == |v.ring.flags| && Checking(v) && !Stranded(v)
    ensures ClosedRun(file, v, es, base, done, verify) && ReChecks(es) == 0
    ensures OnTrack(file, Run(v, es, verify))
    ensures Run(v, es, verify).ring.flushed && Run(v, es, verify).waiting > 0
  {
    es := Flushes(|v.ring.flags| - v.ring.next);
    FlushesToEnd(v, verify);
    FlushesClosed(file, v, |v.ring.flags| - v.ring.next, base, done, verify);
  }

  /** Everything is received and a check waits: flush, wake. */
  lemma CompleteWaiting(file: seq<Byte>, v: Server, base: nat, done: nat, verify: Verifier) returns (es: seq<Event>)
    requires OnTrack(file, v) && v.ring.window == |v.ring.flags| && Checking(v) && !Stranded(v) && verify(file)
    ensures ClosedRun(file, v, es, base, done, verify)
    ensures FileComplete in Run(v, es, verify).out
  {
    es := FlushForCheck(file, v, base, done, verify);
    CompleteFlushed(file, Run(v, es, verify), base, done, verify);
    ClosedConcat(file, v, es, [Wake], base, done, verify);
    es := es + [Wake];
  }

  /** What is missing has just been asked for. */
  ghost predicate JustAsked(v: Server) {
    Missing(v.ring) != [] && v.out != [] && v.out[|v.out| - 1] == TellLostBag(Missing(v.ring))
  }

  ghost predicate TailReceived(v: Server) {
    forall s :: v.ring.last < s < |v.ring.flags| ==> v.ring.flags[s]
  }

  /** Answer the latest request: everything is received, and the flusher is awake. */
  lemma AnswerLatest(file: seq<Byte>, v: Server, base: nat, done: nat, verify: Verifier) returns (es: seq<Event>)
    requires OnTrack(file, v) && LastKnown(v.ring) && !v.flusher.AboutToWait?
    requires JustAsked(v) && base < |v.out| && TailReceived(v)
    ensures ClosedRun(file, v, es, base, done, verify) && ReChecks(es) == 0
    ensures var w := Run(v, es, verify);
            && OnTrack(file, w) && w.ring.window == |w.ring.flags| && v.out <= w.out
            && w.finalAccepted == v.finalAccepted && w.flusher.Looking?
  {
    var missing := Missing(v.ring);
    GapReportedExactly(v.ring);
    assert forall i :: 0 <= i < |missing| ==> missing[i] in missing;
    es := Answer(file, v, missing, |missing|, base, done, verify);
    forall s | s in missing
      ensures Delivers(es, s)
    {
      var i :| 0 <= i < |missing| && missing[i] == s;
      assert es[i].seqNo == s;
    }
    ReplayClosesGaps(v, es, verify);
    FrontiersInEveryRun(v, es, verify);
    var w := Run(v, es, verify);
    assert forall s :: 0 <= s < |w.ring.flags| ==> w.ring.flags[s];
  }

  lemma {:induction false} RequestsPositive(out: seq<ServerMsg>, i: nat)
    requires i < |out| && out[i].TellLostBag?
    ensures Requests(out) > 0
    decreases |out|
  {
    if i < |out| - 1 {
      RequestsPositive(out[..|out| - 1], i);
    }
  }

  lemma RequestStays(v: Server, out: seq<ServerMsg>, base: nat)
    requires JustAsked(v) && base < |v.out| && v.out <= out
    ensures Requests(out[base..]) > 0
  {
    assert out[base..][|v.out| - 1 - base] == v.out[|v.out| - 1];
    RequestsPositive(out[base..], |v.out| - 1 - base);
  }

  /** Everything is received and a check has been started: it looks, and then flush, wake. */
  lemma CompleteChecked(file: seq<Byte>, v: Server, base: nat, done: nat, verify: Verifier) returns (es: seq<Event>)
    requires OnTrack(file, v) && v.ring.window == |v.ring.flags| && v.starting > 0 && !Stranded(v) && verify(file)
    ensures ClosedRun(file, v, es, base, done, verify)
    ensures FileComplete in Run(v, es, verify).out
  {
    AllReceivedNothingMissing(v.ring);
    assert ClosedRun(file, v, [], base, done, verify) && Run(v, [], verify) == v;
    ClosedExtend(file, v, [], Check, base, done, verify);
    es := [] + [Check];
    var rest := CompleteWaiting(file, Run(v, es, verify), base, done, verify);
    ClosedConcat(file, v, es, rest, base, done, verify);
    es := es + rest;
  }

  /** Everything asked for has been answered: replay-done, check, flush, wake. */
  lemma CompleteAnswered(file: seq<Byte>, v: Server, base: nat, verify: Verifier) returns (es: seq<Event>)
    requires OnTrack(file, v) && v.ring.window == |v.ring.flags| && v.finalAccepted && verify(file)
    requires !Stranded(v) && base <= |v.out| && Requests(v.out[base..]) > 0
    ensures ClosedRun(file, v, es, base, 0, verify)
    ensures FileComplete in Run(v, es, verify).out
  {
    assert ClosedRun(file, v, [], base, 0, verify) && Run(v, [], verify) == v;
    ClosedExtend(file, v, [], ReCheck, base, 0, verify);
    es := [] + [ReCheck];
    var rest := CompleteChecked(file, Run(v, es, verify), base, 1, verify);
    ClosedConcat(file, v, es, rest, base, 0, verify);
    es := es + rest;
  }

  /** From a request just made: answer, but not while the flusher is about to block. */
  lemma AnswerRound(file: seq<Byte>, v: Server, base: nat, verify: Verifier) returns (es: seq<Event>)
    requires OnTrack(file, v) && LastKnown(v.ring) && v.finalAccepted
    requires JustAsked(v) && base < |v.out| && TailReceived(v)
    ensures ClosedRun(file, v, es, base, 0, verify) && ReChecks(es) == 0
    ensures var w := Run(v, es, verify);
            && OnTrack(file, w) && w.ring.window == |w.ring.flags| && v.out <= w.out && w.finalAccepted
            && w.flusher.Looking?
  {
    es := [];
    assert ClosedRun(file, v, es, base, 0, verify) && Run(v, es, verify) == v;
    if v.flusher.AboutToWait? {
      ClosedExtend(file, v, es, Sleep, base, 0, verify);
      es := es + [Sleep];
    }
    var answers := AnswerLatest(file, Run(v, es, verify), base, 0, verify);
    ClosedConcat(file, v, es, answers, base, 0, verify);
    es := es + answers;
  }

  /** The same, and then replay-done, flush, wake. */
  lemma CompleteRequest(file: seq<Byte>, v: Server, base: nat, verify: Verifier) returns (es: seq<Event>)
    requires OnTrack(file, v) && LastKnown(v.ring) && v.finalAccepted && verify(file)
    requires JustAsked(v) && base < |v.out| && TailReceived(v)
    ensures ClosedRun(file, v, es, base, 0, verify)
    ensures FileComplete in Run(v, es, verify).out
  {
    es := AnswerRound(file, v, base, verify);
    var w := Run(v, es, verify);
    RequestStays(v, w.out, base);
    var rest := CompleteAnswered(file, w, base, verify);
    ClosedConcat(file, v, es, rest, base, 0, verify);
    es := es + rest;
  }

  /** The check has looked: it waits, or it has asked and gets one round. */
  lemma CompleteLooked(file: seq<Byte>, v: Server, base: nat, verify: Verifier) returns (es: seq<Event>)
    requires OnTrack(file, v) && LastKnown(v.ring) && base <= |v.out| && verify(file)
    requires v.finalAccepted && v.starting > 0 && TailReceived(v) && !Stranded(v)
    ensures ClosedRun(file, Step(v, Check, verify), es, base, 0, verify)
    ensures FileComplete in Run(Step(v, Check, verify), es, verify).out
  {
    var w := Step(v, Check, verify);
    GapReportedExactly(v.ring);
    if Missing(v.ring) != [] {
      es := CompleteRequest(file, w, base, verify);
    } else {
      assert v.ring.window == |v.ring.flags|;
      es := CompleteWaiting(file, w, base, 0, verify);
    }
  }

  /** A check has been started: it looks, and if it asks, one round. */
  lemma CompleteStarted(file: seq<Byte>, v: Server, base: nat, verify: Verifier) returns (es: seq<Event>)
    requires OnTrack(file, v) && LastKnown(v.ring) && base <= |v.out| && verify(file)
    requires v.finalAccepted && v.starting > 0 && TailReceived(v) && !Stranded(v)
    ensures ClosedRun(file, v, es, base, 0, verify)
    ensures FileComplete in Run(v, es, verify).out
  {
    assert ClosedRun(file, v, [], base, 0, verify) && Run(v, [], verify) == v;
    ClosedExtend(file, v, [], Check, base, 0, verify);
    es := [] + [Check];
    var rest := CompleteLooked(file, v, base, verify);
    ClosedConcat(file, v, es, rest, base, 0, verify);
    es := es + rest;
  }

  /** With FileFinish still to come: the one FileFinish, its check, and if that asks, one round. */
  lemma CompleteByOneRound(file: seq<Byte>, v: Server, base: nat, verify: Verifier) returns (es: seq<Event>)
    requires OnTrack(file, v) && LastKnown(v.ring) && base <= |v.out| && verify(file)
    requires !v.finalAccepted && TailReceived(v) && !Stranded(v)
    ensures ClosedRun(file, v, es, base, 0, verify)
    ensures FileComplete in Run(v, es, verify).out
  {
    assert ClosedRun(file, v, [], base, 0, verify) && Run(v, [], verify) == v;
    ClosedExtend(file, v, [], Finish, base, 0, verify);
    es := [] + [Finish];
    var rest := CompleteStarted(file, Run(v, es, verify), base, verify);
    ClosedConcat(file, v, es, rest, base, 0, verify);
    es := es + rest;
  }

  /** Some run in which the client only answers requests sent at `base` or later completes the upload. */
  ghost predicate CanComplete(file: seq<Byte>, v: Server, base: nat, verify: Verifier) {
    exists es :: ClosedRun(file, v, es, base, 0, verify) && FileComplete in Run(v, es, verify).out
  }

  lemma LostTailNeverCompletes(file: seq<Byte>, v: Server, base: nat, verify: Verifier)
    requires v.ring.Frontier() && Live(v) && !TailReceived(v)
    requires forall i, s :: base <= i < |v.out| && v.out[i].TellLostBag? && s in v.out[i].missing ==> s <= v.ring.last
    ensures !CanComplete(file, v, base, verify)
  {
    var u :| v.ring.last < u < |v.ring.flags| && !v.ring.flags[u];
    forall es | ClosedRun(file, v, es, base, 0, verify)
      ensures FileComplete !in Run(v, es, verify).out
    {
      StalledForever(file, v, es, u, base, 0, verify);
    }
  }

  lemma QuietNeverCompletes(file: seq<Byte>, v: Server, verify: Verifier)
    requires v.ring.Frontier() && Live(v) && v.finalAccepted
    requires v.starting == 0 && (!Checking(v) || v.ring.window < |v.ring.flags|)
    ensures !CanComplete(file, v, |v.out|, verify)
  {
    forall es | ClosedRun(file, v, es, |v.out|, 0, verify)
      ensures FileComplete !in Run(v, es, verify).out
    {
      QuietForever(file, v, v, es, |v.out|, verify);
    }
  }

  lemma {:induction false} ClosedSteady(
      file: seq<Byte>, v: Server, es: seq<Event>, base: nat, done: nat, verify: Verifier)
    requires ClosedRun(file, v, es, base, done, verify)
    ensures Steady(es)
    decreases |es|
  {
    if es != [] {
      ClosedSteady(file, Step(v, es[0], verify), es[1..], base, After(done, es[0]), verify);
      assert forall i :: 1 <= i < |es| ==> es[i] == es[1..][i - 1];
    }
  }

  lemma StrandedNeverCompletes(file: seq<Byte>, v: Server, base: nat, verify: Verifier)
    requires v.ring.Frontier() && Live(v) && Stranded(v)
    ensures !CanComplete(file, v, base, verify)
  {
    forall es | ClosedRun(file, v, es, base, 0, verify)
      ensures FileComplete !in Run(v, es, verify).out
    {
      ClosedSteady(file, v, es, base, 0, verify);
      StrandedForever(v, es, verify);
    }
  }

  /** No request open, spurious wakeups apart. Once the client only answers, an intact upload can complete if and only
      if no packet above the last accepted one is missing, the upload is not stranded with a sleeping flusher, and
      either FileFinish is still to come, or a check has been started and has not looked for gaps yet, or everything is
      received and a check is under way. A check reports nothing for a lost tail and then waits for the flush. */
  lemma CompletionExactly(file: seq<Byte>, v: Server, verify: Verifier)
    requires OnTrack(file, v) && LastKnown(v.ring) && verify(file)
    ensures CanComplete(file, v, |v.out|, verify) <==>
              && TailReceived(v) && !Stranded(v)
              && (!v.finalAccepted || v.starting > 0 || (Checking(v) && v.ring.window == |v.ring.flags|))
  {
    if !TailReceived(v) {
      LostTailNeverCompletes(file, v, |v.out|, verify);
    } else if Stranded(v) {
      StrandedNeverCompletes(file, v, |v.out|, verify);
    } else if !v.finalAccepted {
      var es := CompleteByOneRound(file, v, |v.out|, verify);
    } else if v.starting > 0 {
      var es := CompleteStarted(file, v, |v.out|, verify);
    } else if Checking(v) && v.ring.window == |v.ring.flags| {
      var es := CompleteWaiting(file, v, |v.out|, 0, verify);
    } else {
      QuietNeverCompletes(file, v, verify);
    }
  }

  /** A request for everything missing just made, after FileFinish: spurious wakeups apart, the upload can complete if
      and only if no packet above the last accepted one is missing. Its answer wakes the flusher, unless it comes too
      early. */
  lemma RequestCompletesExactly(file: seq<Byte>, v: Server, verify: Verifier)
    requires OnTrack(file, v) && LastKnown(v.ring) && verify(file) && v.finalAccepted && JustAsked(v)
    ensures CanComplete(file, v, |v.out| - 1, verify) <==> TailReceived(v)
  {
    if TailReceived(v) {
      var es := CompleteRequest(file, v, |v.out| - 1, verify);
    } else {
      GapReportedExactly(v.ring);
      LostTailNeverCompletes(file, v, |v.out| - 1, verify);
    }
  }
}
