/** When the server asks for lost packets while data arrives: exactly at which packets, for what, and when again. */
module Asking {
  import opened Streams
  import opened Packets
  import opened Sender
  import opened Transfer
  import opened Runs
  import opened Integrity
  import opened Upload
  import opened Opening
  import opened Outcome

  // ----- one data message -----

  /** Packet `u` of the file lies below the last accepted one and has not been received. */
  predicate Gap(t: Ring, u: int) {
    0 <= u < |t.flags| && u < t.last && !t.flags[u]
  }

  /** A request for exactly the gaps, in ascending order, has been sent. */
  ghost predicate AsksForGaps(v: Server, w: Server) {
    exists list: seq<nat> ::
      && w.out == v.out + [TellLostBag(list)] && w.missingSeqs == list
      && (forall u :: u in list <==> Gap(w.ring, u))
      && Ascending(list)
  }

  /** What a data message does, in every state of every run and by numbers alone. Packet `s` is accepted if it is one of
      the 1024 from the first unreceived one on. And whether it is accepted or not, a request is sent if and only if
      there may be one, `s` is a multiple of 100, and then a packet below the last accepted one is missing; and after a
      request there may be no other. */
  lemma DataStepExactly(v: Server, s: nat, data: seq<Byte>, verify: Verifier)
    requires v.ring.Frontier() && Enabled(v, Data(s, data))
    ensures var w, accepted := Step(v, Data(s, data), verify), v.ring.window <= s < v.ring.window + 1024;
            && w.ring.flags == (if accepted then v.ring.flags[s := true] else v.ring.flags)
            && w.ring.last == (if accepted then s else v.ring.last)
            && w.finalAccepted == v.finalAccepted && w.starting == v.starting
            && if v.able && s % 100 == 0 && exists u :: Gap(w.ring, u)
               then AsksForGaps(v, w) && !w.able
               else w.out == v.out && w.able == v.able && w.missingSeqs == v.missingSeqs
  {
    var t := Accept(v.ring, s, data);
    AcceptKeepsFrontier(v.ring, s, data);
    MissingIsGaps(t);
  }

  lemma MissingIsGaps(t: Ring)
    requires t.Frontier()
    ensures forall u :: u in Missing(t) <==> Gap(t, u)
    ensures Missing(t) != [] <==> exists u :: Gap(t, u)
    ensures Ascending(Missing(t))
  {
    GapReportedExactly(t);
    UnreceivedExactly(t.flags, t.window, Min(t.last, |t.flags|));
    if Missing(t) != [] {
      assert Gap(t, Missing(t)[0]);
    }
    if u :| Gap(t, u) {
      assert u in Missing(t);
    }
  }

  /** From the start of every upload. */
  lemma AsksExactly(total: nat, last: nat, es: seq<Event>, s: nat, data: seq<Byte>, verify: Verifier)
    requires total > 0 && ValidRun(Start(total, last), es, verify)
    requires Enabled(Run(Start(total, last), es, verify), Data(s, data))
    ensures var v := Run(Start(total, last), es, verify);
            var w := Step(v, Data(s, data), verify);
            && (w.out != v.out <==> v.able && s % 100 == 0 && exists u :: Gap(w.ring, u))
            && (w.out != v.out ==> AsksForGaps(v, w))
  {
    InEveryRun(total, last, es, verify);
    DataStepExactly(Run(Start(total, last), es, verify), s, data, verify);
  }

  // ----- when there may be a request -----

  /** The history of the permission: it goes with each request of a data message and comes back with replay-done. */
  ghost function Permitted(v: Server, es: seq<Event>, permitted: bool, verify: Verifier): bool
    requires ValidRun(v, es, verify)
    decreases |es|
  {
    if es == [] then permitted
    else
      var w := Step(v, es[0], verify);
      Permitted(w, es[1..], es[0].ReCheck? || (permitted && !(es[0].Data? && w.out != v.out)), verify)
  }

  lemma {:induction false} PermissionIsHistory(v: Server, es: seq<Event>, verify: Verifier)
    requires v.ring.Frontier() && ValidRun(v, es, verify)
    ensures Run(v, es, verify).able == Permitted(v, es, v.able, verify)
    decreases |es|
  {
    if es != [] {
      StepFrontier(v, es[0], verify);
      PermissionIsHistory(Step(v, es[0], verify), es[1..], verify);
    }
  }

  /** No data message of the run causes a request. */
  ghost predicate DataAsksNothing(v: Server, es: seq<Event>, verify: Verifier)
    requires ValidRun(v, es, verify)
    decreases |es|
  {
    es == []
    || ((es[0].Data? ==> Step(v, es[0], verify).out == v.out)
        && DataAsksNothing(Step(v, es[0], verify), es[1..], verify))
  }

  lemma {:induction false} StaysPermitted(v: Server, es: seq<Event>, verify: Verifier)
    requires v.ring.Frontier() && v.able && ValidRun(v, es, verify) && DataAsksNothing(v, es, verify)
    ensures Run(v, es, verify).ring.Frontier() && Run(v, es, verify).able
    decreases |es|
  {
    if es != [] {
      StepFrontier(v, es[0], verify);
      StaysPermitted(Step(v, es[0], verify), es[1..], verify);
    }
  }

  /** After replay-done, whatever happens in between, the next data message whose number is divisible by 100 and that
      leaves a gap causes a request. */
  lemma AsksAgain(v: Server, es: seq<Event>, s: nat, data: seq<Byte>, verify: Verifier)
    requires v.ring.Frontier() && Enabled(v, ReCheck)
    requires var x := Step(v, ReCheck, verify);
             ValidRun(x, es, verify) && DataAsksNothing(x, es, verify) && Enabled(Run(x, es, verify), Data(s, data))
    ensures var w := Run(Step(v, ReCheck, verify), es, verify);
            var z := Step(w, Data(s, data), verify);
            if s % 100 == 0 && exists u :: Gap(z.ring, u) then AsksForGaps(w, z) else z.out == w.out
  {
    var x := Step(v, ReCheck, verify);
    StepFrontier(v, ReCheck, verify);
    StaysPermitted(x, es, verify);
    DataStepExactly(Run(x, es, verify), s, data, verify);
  }

  // ----- with the client: while there may be none, replay-done is to come -----

  /** A request the client has not taken, or one whose replay-done the server has not handled. */
  ghost predicate RequestOpen(y: System) {
    y.answering != [] || exists i :: y.taken <= i < |y.v.out| && y.v.out[i].TellLostBag?
  }

  lemma StepPermission(v: Server, e: Event, taken: nat, verify: Verifier)
    requires v.ring.Frontier() && Enabled(v, e) && taken <= |v.out|
    ensures var w := Step(v, e, verify);
            && v.out <= w.out && (e.ReCheck? ==> w.able)
            && (v.able && !w.able ==> exists i :: taken <= i < |w.out| && w.out[i].TellLostBag?)
  {
    if e.Data? {
      DataStepExactly(v, e.seqNo, e.data, verify);
      if Step(v, e, verify).out != v.out {
        assert Step(v, e, verify).out[|v.out|].TellLostBag?;
      }
    }
  }

  lemma MoveKeepsOpen(file: seq<Byte>, y: System, m: Move, verify: Verifier)
    requires Sane(file, y) && CanMove(y, m) && (!y.v.able ==> RequestOpen(y))
    ensures !Moved(file, y, m, verify).v.able ==> RequestOpen(Moved(file, y, m, verify))
  {
    var z := Moved(file, y, m, verify);
    if m.Thread? || (m.ServerTake? && Live(y.v)) {
      StepPermission(y.v, if m.Thread? then m.e else EventOf(y.wire[0]), y.taken, verify);
      if i :| y.taken <= i < |y.v.out| && y.v.out[i].TellLostBag? {
        assert z.v.out[i] == y.v.out[i];
      }
    } else if m.ClientTake? {
      assert GoodRequest(file, y.v.out[y.taken], y.v.ring);
    }
  }

  lemma {:induction false} PlayKeepsOpen(file: seq<Byte>, y: System, ms: seq<Move>, verify: Verifier)
    requires Sane(file, y) && ValidMoves(file, y, ms, verify) && (!y.v.able ==> RequestOpen(y))
    ensures var z := Play(file, y, ms, verify); Sane(file, z) && (!z.v.able ==> RequestOpen(z))
    decreases |ms|
  {
    if ms != [] {
      MoveKeepsSane(file, y, ms[0], verify);
      MoveKeepsOpen(file, y, ms[0], verify);
      PlayKeepsOpen(file, Moved(file, y, ms[0], verify), ms[1..], verify);
    }
  }

  lemma {:induction false} OpenHasDone(q: seq<ClientMsg>, open: seq<nat>, have: iset<nat>)
    requires Answers(q, open, have) && open != []
    ensures ReTransLostBagFinished in q
    decreases |q|
  {
    match q[0]
    case FileDataBag(s, _) => OpenHasDone(q[1..], open, have + iset{s});
    case FileFinish => OpenHasDone(q[1..], open, have);
    case ReTransLostBagFinished =>
  }

  /** In every state of an upload: while data messages may cause no request, a request is open, and its replay-done,
      which brings the permission back, is on its way to the server or will be. */
  lemma UnableMeansOpen(file: seq<Byte>, last: nat, env: Setting, y: System, verify: Verifier)
    requires |file| > 0 && Reachable(file, last, env, y, verify) && !y.v.able
    ensures RequestOpen(y) && DoneOwed(y)
  {
    var x := Begin(file, last, env);
    var ms :| ValidMoves(file, x, ms, verify) && Play(file, x, ms, verify) == y;
    BeginSane(file, last, env);
    PlayKeepsOpen(file, x, ms, verify);
    if y.answering != [] {
      OpenHasDone(y.wire + y.replay, y.answering, Received(y.v.ring));
    }
  }

  // ----- a second request, with the real client -----

  /** Packet 0 is missing and the first request has not been taken: packets 20 to 1023 are received as they are
      streamed, everything from 1024 on is refused, and nothing is asked for. */
  ghost predicate Waiting(file: seq<Byte>, last: nat, y: System, n: nat, verify: Verifier) {
    && Calm(file, last, y, verify) && StreamsFrom(file, y, n) && y.replay == [] && y.taken == 0
    && AskedFor20(y.v) && !y.v.finalAccepted
    && forall s :: 0 <= s < |y.v.ring.flags| ==> (y.v.ring.flags[s] <==> 20 <= s < n && s < 1024)
  }

  lemma {:induction false} StreamOn(file: seq<Byte>, last: nat, y: System, n: nat, m: nat, verify: Verifier)
      returns (z: System)
    requires Waiting(file, last, y, n, verify) && 20 < n <= m < TotalPackets(|file|)
    ensures Waiting(file, last, z, m, verify) && z.env == y.env
    decreases m - n
  {
    z := y;
    if n < m {
      NextStreamed(file, y, n);
      DataStepExactly(y.v, n, Block(file, n), verify);
      z := Feed(file, last, y, verify);
      assert y.v.ring.window == 0;
      z := StreamOn(file, last, z, n + 1, m, verify);
    }
  }

  /** The replay is under way: what is missing below 1024 is in it. */
  ghost predicate Replaying(file: seq<Byte>, last: nat, y: System, n: nat, verify: Verifier) {
    && Calm(file, last, y, verify) && StreamsFrom(file, y, n) && !y.v.able && !y.v.finalAccepted && |y.v.out| == 1
    && |y.v.ring.flags| > 1024
    && y.replay != [] && y.replay[|y.replay| - 1].ReTransLostBagFinished?
    && (forall i :: 0 <= i < |y.replay| - 1 ==> y.replay[i].FileDataBag? && y.replay[i].seqNo < 20)
    && (forall s :: 0 <= s < 1024 ==> y.v.ring.flags[s] || Bag(file, s) in y.replay)
    && forall s :: 1024 <= s < |y.v.ring.flags| ==> !y.v.ring.flags[s]
  }

  lemma TakeFirst(file: seq<Byte>, last: nat, y: System, n: nat, verify: Verifier) returns (z: System)
    requires Waiting(file, last, y, n, verify) && 1024 <= n < TotalPackets(|file|)
    ensures Replaying(file, last, z, n, verify) && z.env == y.env && z.v == y.v
  {
    z := Moved(file, y, ClientTake, verify);
    ReachMove(file, last, y.env, y, ClientTake, verify);
    MoveKeepsSane(file, y, ClientTake, verify);
    var missing := y.v.out[0].missing;
    assert forall i :: 0 <= i < |missing| ==> missing[i] in missing;
    forall s: nat | s < 20
      ensures Bag(file, s) in z.replay
    {
      assert s in missing;
      var i :| 0 <= i < |missing| && missing[i] == s;
      assert z.replay[i] == Bag(file, s);
    }
  }

  lemma {:induction false} ReplayAll(file: seq<Byte>, last: nat, y: System, n: nat, verify: Verifier)
      returns (z: System)
    requires Replaying(file, last, y, n, verify) && 1024 <= n < TotalPackets(|file|)
    ensures Replaying(file, last, z, n, verify) && z.env == y.env && z.v.out == y.v.out
    ensures z.replay == [ReTransLostBagFinished]
    decreases |y.replay|
  {
    z := y;
    if |y.replay| > 1 {
      z := ReplayOne(file, last, y, n, verify);
      z := ReplayAll(file, last, z, n, verify);
    }
  }

  lemma ReplayOne(file: seq<Byte>, last: nat, y: System, n: nat, verify: Verifier) returns (z: System)
    requires Replaying(file, last, y, n, verify) && 1024 <= n < TotalPackets(|file|) && |y.replay| > 1
    ensures Replaying(file, last, z, n, verify) && z.env == y.env && z.v.out == y.v.out
    ensures |z.replay| < |y.replay|
  {
    var s := y.replay[0].seqNo;
    assert HonestMsg(file, y.replay[0]);
    DataStepExactly(y.v, s, y.replay[0].data, verify);
    z := FeedReplay(file, last, y, verify);
    assert z.v.ring.flags[s];
  }

  /** Replay-done is handled: the server waits for packet 1024 and may ask again. */
  ghost predicate Refreshed(file: seq<Byte>, last: nat, y: System, n: nat, verify: Verifier) {
    && Calm(file, last, y, verify) && StreamsFrom(file, y, n) && y.v.able && y.v.ring.window == 1024
    && |y.v.out| == 1 && forall s :: 0 <= s < |y.v.ring.flags| ==> (y.v.ring.flags[s] <==> s < 1024)
  }

  lemma Refresh(file: seq<Byte>, last: nat, y: System, n: nat, verify: Verifier) returns (z: System)
    requires Replaying(file, last, y, n, verify) && 1024 <= n < TotalPackets(|file|)
    requires y.replay == [ReTransLostBagFinished]
    ensures Refreshed(file, last, z, n, verify) && z.env == y.env && z.v.out == y.v.out
  {
    assert forall s: nat :: Bag(file, s) !in y.replay;
    assert !y.v.ring.flags[1024] && y.v.ring.window == 1024;
    z := FeedReplay(file, last, y, verify);
  }

  /** The real client of a file of more than `n` packets, for any of the hundreds between 1024 and 2048: the server
      refuses packets 1024 to n - 1 while packets 0 to 19 are missing, the first request is answered, and packet `n`
      makes it ask for exactly those it refused. */
  lemma SecondRequest(file: seq<Byte>, last: nat, env: Setting, n: nat, verify: Verifier) returns (z: System)
    requires 1024 < n < 2048 && n % 100 == 0 && n * 1024 < |file|
    ensures Reachable(file, last, env, z, verify)
    ensures |z.v.out| == 2 && z.v.out[0].TellLostBag? && z.v.out[1].TellLostBag?
    ensures forall s: nat :: s in z.v.out[0].missing <==> s < 20
    ensures forall s: nat :: s in z.v.out[1].missing <==> 1024 <= s < n
  {
    z := Begin(file, last, env);
    BeginReachable(file, last, env, verify);
    BeginSane(file, last, env);
    StartFaithful(file, last);
    assert StreamsFrom(file, z, 20);
    z := Open(file, last, z, 20, verify);
    z := StreamOn(file, last, z, 101, n, verify);
    z := TakeFirst(file, last, z, n, verify);
    z := ReplayAll(file, last, z, n, verify);
    z := Refresh(file, last, z, n, verify);
    z := AskAtHundred(file, last, z, n, verify);
  }

  lemma AskAtHundred(file: seq<Byte>, last: nat, y: System, n: nat, verify: Verifier) returns (z: System)
    requires Refreshed(file, last, y, n, verify) && 1024 < n < 2048 && n % 100 == 0 && n < TotalPackets(|file|)
    ensures Reachable(file, last, y.env, z, verify) && y.v.out < z.v.out && |z.v.out| == 2
    ensures z.v.out[1].TellLostBag? && forall s: nat :: s in z.v.out[1].missing <==> 1024 <= s < n
  {
    NextStreamed(file, y, n);
    z := Feed(file, last, y, verify);
    HundredAsks(y.v, n, Block(file, n), verify);
  }

  lemma HundredAsks(v: Server, n: nat, data: seq<Byte>, verify: Verifier)
    requires v.ring.Frontier() && Enabled(v, Data(n, data)) && v.able && v.ring.window == 1024
    requires 1024 < n < 2048 && n % 100 == 0 && n < |v.ring.flags|
    requires forall s :: 0 <= s < |v.ring.flags| ==> (v.ring.flags[s] <==> s < 1024)
    ensures var w := Step(v, Data(n, data), verify);
            && |w.out| == |v.out| + 1 && v.out < w.out && w.out[|v.out|].TellLostBag?
            && forall s: nat :: s in w.out[|v.out|].missing <==> 1024 <= s < n
  {
    DataStepExactly(v, n, data, verify);
    var t := Step(v, Data(n, data), verify).ring;
    assert forall s: nat :: Gap(t, s) <==> 1024 <= s < n;
    assert Gap(t, 1024);
  }
}
