/** How the real client gets a file of more than 100 packets received in order: packets 20 to 100, the request they
    cause, its replay, and then one packet after the other. */
module Opening {
  import opened Streams
  import opened Packets
  import opened Sender
  import opened Transfer
  import opened Runs
  import opened Integrity
  import opened Upload
  import opened Outcome

  /** A reachable state with nothing on the wire, the flusher awake and no packet missed. */
  ghost predicate Calm(file: seq<Byte>, last: nat, y: System, verify: Verifier) {
    && Reachable(file, last, y.env, y, verify) && Sane(file, y)
    && Live(y.v) && y.wire == [] && y.v.flusher.Looking? && !y.missed
  }

  /** The client streams one message and the server handles it. */
  lemma Feed(file: seq<Byte>, last: nat, y: System, verify: Verifier) returns (z: System)
    requires Calm(file, last, y, verify) && y.stream != []
    ensures Reachable(file, last, z.env, z, verify) && Sane(file, z)
    ensures Enabled(y.v, EventOf(y.stream[0]))
    ensures z == y.(v := Step(y.v, EventOf(y.stream[0]), verify), stream := y.stream[1..])
  {
    var head := y.stream[0];
    assert HonestMsg(file, head);
    z := Moved(file, y, StreamSend, verify);
    ReachMove(file, last, y.env, y, StreamSend, verify);
    MoveKeepsSane(file, y, StreamSend, verify);
    assert z.wire == [head];
    ReachMove(file, last, y.env, z, ServerTake, verify);
    MoveKeepsSane(file, z, ServerTake, verify);
    z := Moved(file, z, ServerTake, verify);
  }

  /** The same for one message of a replay. */
  lemma FeedReplay(file: seq<Byte>, last: nat, y: System, verify: Verifier) returns (z: System)
    requires Calm(file, last, y, verify) && y.replay != []
    ensures Reachable(file, last, z.env, z, verify) && Sane(file, z)
    ensures Enabled(y.v, EventOf(y.replay[0]))
    ensures z == y.(v := Step(y.v, EventOf(y.replay[0]), verify), replay := y.replay[1..], answering := z.answering)
  {
    var head := y.replay[0];
    assert HonestMsg(file, head);
    z := Moved(file, y, ReplaySend, verify);
    ReachMove(file, last, y.env, y, ReplaySend, verify);
    MoveKeepsSane(file, y, ReplaySend, verify);
    assert z.wire == [head];
    ReachMove(file, last, y.env, z, ServerTake, verify);
    MoveKeepsSane(file, z, ServerTake, verify);
    z := Moved(file, z, ServerTake, verify);
  }

  /** What SendFile streams of a file of more than 20 packets: packet 20, packet 21, and so on. */
  lemma {:induction false} StreamedFrom20(file: seq<Byte>, n: nat)
    requires n <= TotalPackets(|file|) && TotalPackets(|file|) > 20
    ensures |Streamed(file, n)| == if n < 20 then 0 else n - 20
    ensures forall k :: 0 <= k < n - 20 ==> Streamed(file, n)[k] == Bag(file, k + 20)
  {
    if n > 0 {
      StreamedFrom20(file, n - 1);
      BlockBounds(file, n - 1);
    }
  }

  /** The client still has to stream everything from packet `n` on. */
  ghost predicate StreamsFrom(file: seq<Byte>, y: System, n: nat) {
    20 <= n <= TotalPackets(|file|) && n - 20 <= |Plan(file)| && y.stream == Plan(file)[n - 20..]
  }

  lemma NextStreamed(file: seq<Byte>, y: System, n: nat)
    requires StreamsFrom(file, y, n) && TotalPackets(|file|) > 20
    ensures n < TotalPackets(|file|) ==>
              y.stream != [] && y.stream[0] == Bag(file, n) && y.stream[1..] == Plan(file)[n + 1 - 20..]
    ensures n == TotalPackets(|file|) ==> y.stream == [FileFinish]
  {
    StreamedFrom20(file, TotalPackets(|file|));
  }

  lemma MimicFlush(file: seq<Byte>, last: nat, y: System, verify: Verifier) returns (z: System)
    requires Calm(file, last, y, verify) && InOrder(file, y.v) && Enabled(y.v, Flush)
    ensures Calm(file, last, z, verify) && InOrder(file, z.v) && z == y.(v := Step(y.v, Flush, verify))
    ensures z.v.ring.window == y.v.ring.window
  {
    z := Moved(file, y, Thread(Flush), verify);
    ReachMove(file, last, y.env, y, Thread(Flush), verify);
    MoveKeepsSane(file, y, Thread(Flush), verify);
  }

  lemma MimicData(file: seq<Byte>, last: nat, y: System, verify: Verifier) returns (z: System)
    requires TotalPackets(|file|) > 20 && Calm(file, last, y, verify) && InOrder(file, y.v)
    requires StreamsFrom(file, y, y.v.ring.window) && y.v.ring.window < TotalPackets(|file|)
    ensures var e := Data(y.v.ring.window, Block(file, y.v.ring.window));
            Enabled(y.v, e) && z == y.(v := Step(y.v, e, verify), stream := z.stream)
    ensures Calm(file, last, z, verify) && InOrder(file, z.v) && StreamsFrom(file, z, z.v.ring.window)
  {
    NextStreamed(file, y, y.v.ring.window);
    InOrderStep(file, y.v, verify);
    z := Feed(file, last, y, verify);
  }

  /** Every orderly run of the server is a run of the system: the client streams what the run delivers next. */
  lemma {:induction false} Mimic(file: seq<Byte>, last: nat, y: System, es: seq<Event>, verify: Verifier)
      returns (z: System)
    requires TotalPackets(|file|) > 20 && Calm(file, last, y, verify) && InOrder(file, y.v)
    requires StreamsFrom(file, y, y.v.ring.window) && Orderly(file, y.v, es, verify)
    ensures Calm(file, last, z, verify) && z == y.(v := Run(y.v, es, verify), stream := z.stream)
    ensures StreamsFrom(file, z, z.v.ring.window)
    decreases |es|
  {
    z := y;
    if es != [] {
      if es[0].Flush? {
        z := MimicFlush(file, last, y, verify);
      } else {
        z := MimicData(file, last, y, verify);
      }
      z := Mimic(file, last, z, es[1..], verify);
    }
  }

  // ----- getting there: packets 20 to 100, the request they cause, and its replay -----

  /** What both stretches below keep: nothing flushed, every received packet below 101 and in its slot. */
  ghost predicate FirstStretch(file: seq<Byte>, v: Server) {
    && Faithful(file, v.ring) && WithinLag(v.ring) && Live(v)
    && v.ring.next == 0 && v.ring.disk == [] && v.starting == v.waiting == v.blocked == 0 && !v.finalAccepted
    && |v.ring.flags| > CHECK_LOST_PER_BAGS
    && forall s :: CHECK_LOST_PER_BAGS < s < |v.ring.flags| ==> !v.ring.flags[s]
  }

  lemma StretchData(file: seq<Byte>, v: Server, s: nat, verify: Verifier)
    requires FirstStretch(file, v) && s <= CHECK_LOST_PER_BAGS
    ensures var e := Data(s, Block(file, s));
            && Enabled(v, e) && FirstStretch(file, Step(v, e, verify))
            && Step(v, e, verify).ring.flags == v.ring.flags[s := true]
  {
    var e := Data(s, Block(file, s));
    StepKeepsFaithful(file, v, e, verify);
    StepRing(v, e, verify);
  }

  /** Exactly packets 20 to `n`-1 are received. */
  ghost predicate ReceivedFrom20(t: Ring, n: nat) {
    forall s :: 0 <= s < |t.flags| ==> (t.flags[s] <==> 20 <= s < n)
  }

  ghost predicate AskedFor20(v: Server) {
    !v.able && |v.out| == 1 && v.out[0].TellLostBag? && forall s: nat :: s in v.out[0].missing <==> s < 20
  }

  /** Packet 100 is the first to cause a request. */
  lemma OpeningData(file: seq<Byte>, v: Server, n: nat)
    requires FirstStretch(file, v) && ReceivedFrom20(v.ring, n) && 20 <= n <= CHECK_LOST_PER_BAGS
    requires v.able && v.out == []
    ensures var w := HandleData(v, n, Block(file, n));
            && ReceivedFrom20(w.ring, n + 1)
            && if n < CHECK_LOST_PER_BAGS then w.able && w.out == [] else AskedFor20(w)
  {
    var t := Accept(v.ring, n, Block(file, n));
    assert !v.ring.flags[0] && v.ring.window == 0;
    AcceptKeepsFrontier(v.ring, n, Block(file, n));
    GapReportedExactly(t);
  }

  /** Packets 20 to `n`-1 streamed and handled. */
  ghost predicate OpenedTo(file: seq<Byte>, y: System, n: nat) {
    && FirstStretch(file, y.v) && StreamsFrom(file, y, n) && y.replay == [] && y.taken == 0
    && ReceivedFrom20(y.v.ring, n)
  }

  lemma {:induction false} Open(file: seq<Byte>, last: nat, y: System, n: nat, verify: Verifier) returns (z: System)
    requires Calm(file, last, y, verify) && OpenedTo(file, y, n) && n <= CHECK_LOST_PER_BAGS
    requires y.v.able && y.v.out == []
    ensures Calm(file, last, z, verify) && OpenedTo(file, z, CHECK_LOST_PER_BAGS + 1) && AskedFor20(z.v)
    ensures z.env == y.env
    decreases CHECK_LOST_PER_BAGS - n
  {
    NextStreamed(file, y, n);
    StretchData(file, y.v, n, verify);
    OpeningData(file, y.v, n);
    z := Feed(file, last, y, verify);
    if n < CHECK_LOST_PER_BAGS {
      z := Open(file, last, z, n + 1, verify);
    }
  }

  /** The replay of packets 0 to 19 under way: whatever is missing up to packet 100 is in it. */
  ghost predicate Backfilling(file: seq<Byte>, y: System) {
    && FirstStretch(file, y.v) && StreamsFrom(file, y, CHECK_LOST_PER_BAGS + 1) && !y.v.able
    && y.replay != [] && y.replay[|y.replay| - 1].ReTransLostBagFinished?
    && (forall i :: 0 <= i < |y.replay| - 1 ==> y.replay[i].FileDataBag? && y.replay[i].seqNo <= CHECK_LOST_PER_BAGS)
    && forall s: nat :: s <= CHECK_LOST_PER_BAGS ==> y.v.ring.flags[s] || Bag(file, s) in y.replay
  }

  /** Packets 0 to 100 received, none flushed, the rest still to be streamed, and replay-done held back. */
  ghost predicate Caught(file: seq<Byte>, y: System) {
    && FirstStretch(file, y.v) && InOrder(file, y.v) && y.v.ring.window == CHECK_LOST_PER_BAGS + 1 && !y.v.able
    && StreamsFrom(file, y, CHECK_LOST_PER_BAGS + 1) && y.replay == [ReTransLostBagFinished]
  }

  lemma BackfillRest(file: seq<Byte>, y: System, z: System)
    requires Backfilling(file, y) && y.replay[0].FileDataBag? && HonestMsg(file, y.replay[0])
    requires z.replay == y.replay[1..] && z.v.ring.flags == y.v.ring.flags[y.replay[0].seqNo := true]
    ensures forall s: nat :: s <= CHECK_LOST_PER_BAGS ==> z.v.ring.flags[s] || Bag(file, s) in z.replay
  {
  }

  /** With all but replay-done handled everything up to packet 100 is there. */
  lemma BackfillDone(file: seq<Byte>, y: System)
    requires Backfilling(file, y) && |y.replay| == 1 && y.v.flusher.Looking?
    ensures Caught(file, y)
  {
    var t := y.v.ring;
    assert forall s: nat :: Bag(file, s) !in y.replay;
    assert t.window == CHECK_LOST_PER_BAGS + 1 by {
      assert CHECK_LOST_PER_BAGS + 1 < |t.flags| ==> !t.flags[CHECK_LOST_PER_BAGS + 1];
    }
  }

  lemma BackfillOne(file: seq<Byte>, last: nat, y: System, verify: Verifier) returns (z: System)
    requires Calm(file, last, y, verify) && Backfilling(file, y) && |y.replay| > 1
    ensures Calm(file, last, z, verify) && Backfilling(file, z) && z.env == y.env && |z.replay| < |y.replay|
  {
    assert HonestMsg(file, y.replay[0]);
    StretchData(file, y.v, y.replay[0].seqNo, verify);
    z := FeedReplay(file, last, y, verify);
    BackfillRest(file, y, z);
  }

  lemma {:induction false} Backfill(file: seq<Byte>, last: nat, y: System, verify: Verifier) returns (z: System)
    requires Calm(file, last, y, verify) && Backfilling(file, y)
    ensures Calm(file, last, z, verify) && Caught(file, z) && z.env == y.env
    decreases |y.replay|
  {
    z := y;
    if |y.replay| == 1 {
      BackfillDone(file, y);
    } else {
      z := BackfillOne(file, last, y, verify);
      z := Backfill(file, last, z, verify);
    }
  }

  lemma TakeFor20(file: seq<Byte>, last: nat, y: System, verify: Verifier) returns (z: System)
    requires Calm(file, last, y, verify) && OpenedTo(file, y, CHECK_LOST_PER_BAGS + 1) && AskedFor20(y.v)
    ensures Calm(file, last, z, verify) && Backfilling(file, z) && z.env == y.env
  {
    z := Moved(file, y, ClientTake, verify);
    ReachMove(file, last, y.env, y, ClientTake, verify);
    MoveKeepsSane(file, y, ClientTake, verify);
    var missing := y.v.out[0].missing;
    assert forall i :: 0 <= i < |missing| ==> missing[i] in missing;
    forall s: nat | s < 20
      ensures Bag(file, s) in z.replay
    {
      assert s in missing;
      var i :| 0 <= i < |missing| && missing[i] == s;
      assert z.replay[i] == Bag(file, s);
    }
  }

  /** A file of more than 100 packets: the first 101 are received and none is flushed. */
  lemma FirstPacketsCaught(file: seq<Byte>, last: nat, env: Setting, verify: Verifier) returns (z: System)
    requires TotalPackets(|file|) > CHECK_LOST_PER_BAGS
    ensures Calm(file, last, z, verify) && Caught(file, z) && z.env == env
  {
    z := Begin(file, last, env);
    BeginReachable(file, last, env, verify);
    BeginSane(file, last, env);
    StartFaithful(file, last);
    assert StreamsFrom(file, z, 20);
    z := Open(file, last, z, 20, verify);
    z := TakeFor20(file, last, z, verify);
    z := Backfill(file, last, z, verify);
  }

  // ----- going on from there -----

  /** While a request is open an orderly run changes nothing but the ring. */
  lemma {:induction false} OrderlyAsksNothing(file: seq<Byte>, v: Server, es: seq<Event>, verify: Verifier)
    requires Orderly(file, v, es, verify) && !v.able && v.blocked == 0 && v.flusher.Looking?
    ensures Run(v, es, verify) == v.(ring := Run(v, es, verify).ring)
    decreases |es|
  {
    if es != [] {
      OrderlyAsksNothing(file, Step(v, es[0], verify), es[1..], verify);
    }
  }

  /** Everything is received and flushed, a check is about to answer, and replay-done is still held back. */
  ghost predicate Concluded(file: seq<Byte>, y: System, disk: seq<Byte>) {
    && y.v.ring.flushed && y.v.ring.window == |y.v.ring.flags| && y.v.ring.disk == disk
    && y.v.finalAccepted && y.v.starting == 0 && y.v.waiting == 1 && y.v.blocked == 0
    && y.stream == [] && y.replay == [ReTransLostBagFinished]
  }

  /** A check that has been started looks and, everything being received, goes to wait. */
  lemma LookForGaps(file: seq<Byte>, last: nat, y: System, verify: Verifier) returns (z: System)
    requires Calm(file, last, y, verify) && y.v.starting > 0 && y.v.ring.window == |y.v.ring.flags|
    ensures Calm(file, last, z, verify)
    ensures z == y.(v := y.v.(starting := y.v.starting - 1, waiting := y.v.waiting + 1))
  {
    GapReportedExactly(y.v.ring);
    ReachMove(file, last, y.env, y, Thread(Check), verify);
    MoveKeepsSane(file, y, Thread(Check), verify);
    z := Moved(file, y, Thread(Check), verify);
  }

  /** From there along any orderly run that receives and flushes everything, then FileFinish and its check. */
  lemma Conclude(file: seq<Byte>, last: nat, y: System, es: seq<Event>, verify: Verifier) returns (z: System)
    requires Calm(file, last, y, verify) && Caught(file, y) && Orderly(file, y.v, es, verify)
    requires var w := Run(y.v, es, verify);
             InOrder(file, w) && w.ring.flushed && w.ring.window == |w.ring.flags|
    ensures Calm(file, last, z, verify) && Concluded(file, z, Run(y.v, es, verify).ring.disk) && z.env == y.env
  {
    z := Mimic(file, last, y, es, verify);
    OrderlyAsksNothing(file, y.v, es, verify);
    NextStreamed(file, z, TotalPackets(|file|));
    z := Feed(file, last, z, verify);
    z := LookForGaps(file, last, z, verify);
  }

  /** The remaining flusher turns. */
  lemma {:induction false} FlushOut(file: seq<Byte>, last: nat, y: System, verify: Verifier) returns (z: System)
    requires Calm(file, last, y, verify) && y.v.ring.window == |y.v.ring.flags| && y.v.blocked == 0
    ensures Calm(file, last, z, verify) && z == y.(v := y.v.(ring := z.v.ring))
    ensures z.v.ring.flushed && z.v.ring.window == |z.v.ring.flags|
    decreases |y.v.ring.flags| - y.v.ring.next
  {
    z := y;
    if !y.v.ring.flushed {
      z := Moved(file, y, Thread(Flush), verify);
      ReachMove(file, last, y.env, y, Thread(Flush), verify);
      MoveKeepsSane(file, y, Thread(Flush), verify);
      z := FlushOut(file, last, z, verify);
    }
  }

  lemma WakeUp(file: seq<Byte>, last: nat, y: System, verify: Verifier) returns (z: System)
    requires Reachable(file, last, y.env, y, verify) && !y.crashed && y.v.ring.Shape()
    requires y.v.ring.flushed && y.v.waiting > 0 && verify(y.v.ring.disk)
    ensures Reachable(file, last, z.env, z, verify)
    ensures z == y.(v := y.v.(waiting := y.v.waiting - 1, out := y.v.out + [FileComplete]))
  {
    z := Moved(file, y, Thread(Wake), verify);
    ReachMove(file, last, y.env, y, Thread(Wake), verify);
  }
}
