/** Which uploads complete, whatever the schedule. */
module Outcome {
  import opened Streams
  import opened Packets
  import opened Sender
  import opened Transfer
  import opened Runs
  import opened Integrity
  import opened Upload
  import opened Termination

  function Bag(file: seq<Byte>, s: nat): ClientMsg { FileDataBag(s, Block(file, s)) }

  ghost predicate NoneAsked(out: seq<ServerMsg>) {
    forall i :: 0 <= i < |out| ==> !out[i].TellLostBag?
  }

  /** Packet `s` is on its way to the server, or will be. */
  ghost predicate Owed(file: seq<Byte>, y: System, s: nat) {
    || Bag(file, s) in y.stream || Bag(file, s) in y.wire || Bag(file, s) in y.replay
    || exists i :: y.taken <= i < |y.v.out| && y.v.out[i].TellLostBag? && s in y.v.out[i].missing
  }

  /** A replay-done message is on its way to the server, or will be. */
  ghost predicate DoneOwed(y: System) {
    || ReTransLostBagFinished in y.wire || ReTransLostBagFinished in y.replay
    || exists i :: y.taken <= i < |y.v.out| && y.v.out[i].TellLostBag?
  }

  /** The small-file case: every packet fits into the first window, and the check after FileFinish looks at the
      whole file, because the last packet is sent or because the unset m_LastReceivedSeq is past the end. */
  predicate Reliable(file: seq<Byte>, last: nat) {
    && 0 < TotalPackets(|file|) <= WINDOW_SIZE
    && (!Skipped(file, TotalPackets(|file|) - 1) || last >= TotalPackets(|file|))
  }

  /** The same by sizes alone: at most 1 MiB, and more than twenty packets, a short last one, or an unset
      m_LastReceivedSeq that lies behind the file. */
  lemma ReliableBySize(file: seq<Byte>, last: nat)
    ensures Reliable(file, last) <==>
              && 0 < |file| <= 1024 * 1024
              && (|file| > 20 * 1024 || |file| % 1024 != 0 || last * 1024 >= |file|)
  {
    if |file| > 0 {
      PacketBySize(file, TotalPackets(|file|) - 1);
    }
  }

  /** What SendFile and then the timer have sent or have still to send. */
  function Sent(file: seq<Byte>, resent: nat): seq<ClientMsg> {
    Plan(file) + seq(resent, _ => FileFinish)
  }

  /** How much of it the server has handled while it has asked for nothing. */
  function Handled(file: seq<Byte>, y: System): int {
    |Sent(file, y.resent)| - |y.wire| - |y.stream|
  }

  /** m_LastReceivedSeq after the first `k` messages of the plan. */
  function LastAfter(file: seq<Byte>, k: nat, last: nat): nat {
    var data := Streamed(file, TotalPackets(|file|));
    var j := Min(k, |data|);
    if j > 0 && data[j - 1].FileDataBag? then data[j - 1].seqNo else last
  }

  /** Before the first request the server has seen exactly a prefix of the plan, and everything once the check that
      FileFinish starts has looked. */
  ghost predicate FirstPhase(file: seq<Byte>, y: System, last: nat) {
    var k, sent := Handled(file, y), Sent(file, y.resent);
    && y.replay == [] && k >= 0
    && y.wire + y.stream == sent[k..]
    && (forall s :: 0 <= s < |y.v.ring.flags| ==> (y.v.ring.flags[s] <==> Bag(file, s) in sent[..k]))
    && y.v.ring.last == LastAfter(file, k, last)
    && y.v.finalAccepted == (k >= |Plan(file)|)
    && (y.v.finalAccepted && y.v.starting == 0 ==> y.v.ring.window == |y.v.ring.flags|)
  }

  ghost predicate Covered(file: seq<Byte>, y: System) {
    forall s :: 0 <= s < |y.v.ring.flags| && !Skipped(file, s) ==>
                  y.v.ring.flags[s] || Bag(file, s) in y.stream || Bag(file, s) in y.wire
  }

  ghost predicate AllOwed(file: seq<Byte>, y: System) {
    forall s :: 0 <= s < |y.v.ring.flags| ==> y.v.ring.flags[s] || Owed(file, y, s)
  }

  ghost predicate OnwardBase(file: seq<Byte>, y: System) {
    && Faithful(file, y.v.ring) && WithinLag(y.v.ring)
    && RequestVerify !in y.v.out
    && (y.resent > 0 ==> y.stream == [])
    && Covered(file, y)
    && (FileFinish in y.stream || FileFinish in y.wire || y.v.finalAccepted)
    && (y.replay != [] ==> y.replay[|y.replay| - 1].ReTransLostBagFinished?)
    && (y.v.starting > 0 ==> y.v.finalAccepted)
    && (y.v.finalAccepted && Live(y.v) ==> y.v.starting > 0 || Checking(y.v) || DoneOwed(y))
  }

  ghost predicate Going(file: seq<Byte>, y: System, last: nat) {
    OnwardBase(file, y) && if NoneAsked(y.v.out) then FirstPhase(file, y, last) else AllOwed(file, y)
  }

  ghost predicate Onward(file: seq<Byte>, y: System, last: nat) {
    Sane(file, y) && Going(file, y, last)
  }

  /** Until FileComplete is sent some move is possible, unless everything is received and the flusher sleeps. */
  lemma SomeMove(file: seq<Byte>, y: System, last: nat) returns (m: Move)
    requires Onward(file, y, last) && Live(y.v) && !(Stranded(y.v) && y.v.flusher.Asleep?)
    ensures CanMove(y, m) && Promised(m)
  {
    if y.stream != [] {
      m := StreamSend;
    } else if y.replay != [] {
      m := ReplaySend;
    } else if y.taken < |y.v.out| {
      m := ClientTake;
    } else if y.v.flusher.AboutToWait? {
      m := Thread(Sleep);
    } else if y.wire != [] {
      m := ServerTake;
      assert HonestMsg(file, y.wire[0]);
    } else {
      m := LastMoves(file, y, last);
    }
  }

  /** Nothing is under way any more: what remains is the look of a check, and once everything is received flushing and
      the rest of the check. */
  lemma LastMoves(file: seq<Byte>, y: System, last: nat) returns (m: Move)
    requires Onward(file, y, last) && Live(y.v) && !(Stranded(y.v) && y.v.flusher.Asleep?)
    requires y.stream == y.replay == y.wire == [] && y.taken == |y.v.out| && !y.v.flusher.AboutToWait?
    ensures CanMove(y, m) && Promised(m)
  {
    if y.v.starting > 0 {
      m := Thread(Check);
    } else {
      assert y.v.ring.window == |y.v.ring.flags|;
      m := Thread(if y.v.ring.flushed then Wake else Flush);
    }
  }

  /** At rest: completed, unless the last packet accepted was missed by the flusher. */
  lemma RestIsComplete(file: seq<Byte>, y: System, last: nat)
    requires Onward(file, y, last) && Noted(y) && Quiescent(y)
    ensures FileComplete in y.v.out <==> !y.missed
  {
    if Live(y.v) {
      if !(Stranded(y.v) && y.v.flusher.Asleep?) {
        var m := SomeMove(file, y, last);
      }
    }
  }

  // ----- the invariant is kept -----

  /** Nothing owed is lost when a message is put on the wire. */
  lemma SendOwes(file: seq<Byte>, y: System, z: System, m: ClientMsg)
    requires z.wire == y.wire + [m] && z.v == y.v && z.taken == y.taken
    requires forall k :: k in y.stream ==> k in z.stream || k == m
    requires forall k :: k in y.replay ==> k in z.replay || k == m
    ensures forall k :: k in y.stream || k in y.wire ==> k in z.stream || k in z.wire
    ensures forall s :: Owed(file, y, s) ==> Owed(file, z, s)
    ensures DoneOwed(y) ==> DoneOwed(z)
  {
    assert z.wire[|y.wire|] == m;
    assert forall k :: k in y.wire ==> k in z.wire;
  }

  lemma StreamSendBase(file: seq<Byte>, y: System, verify: Verifier)
    requires OnwardBase(file, y) && CanMove(y, StreamSend)
    ensures var z := Moved(file, y, StreamSend, verify);
            OnwardBase(file, z) && forall s :: Owed(file, y, s) ==> Owed(file, z, s)
  {
    var z := Moved(file, y, StreamSend, verify);
    assert y.stream == [y.stream[0]] + z.stream;
    SendOwes(file, y, z, y.stream[0]);
  }

  lemma StreamSendOnward(file: seq<Byte>, y: System, last: nat, verify: Verifier)
    requires Going(file, y, last) && CanMove(y, StreamSend)
    ensures Going(file, Moved(file, y, StreamSend, verify), last)
  {
    var z := Moved(file, y, StreamSend, verify);
    StreamSendBase(file, y, verify);
    assert z.wire + z.stream == y.wire + y.stream;
  }

  lemma ReplaySendOnward(file: seq<Byte>, y: System, last: nat, verify: Verifier)
    requires Going(file, y, last) && CanMove(y, ReplaySend)
    ensures Going(file, Moved(file, y, ReplaySend, verify), last)
  {
    var z := Moved(file, y, ReplaySend, verify);
    assert y.replay == [y.replay[0]] + z.replay;
    SendOwes(file, y, z, y.replay[0]);
  }

  /** The timer sends FileFinish again. */
  lemma ResendOnward(file: seq<Byte>, y: System, last: nat, verify: Verifier)
    requires Going(file, y, last) && CanMove(y, Resend)
    ensures Going(file, Moved(file, y, Resend, verify), last)
  {
    var z := Moved(file, y, Resend, verify);
    SendOwes(file, y, z, FileFinish);
    if NoneAsked(y.v.out) {
      ResendPhase(file, y, last, verify);
    }
  }

  lemma ResendPhase(file: seq<Byte>, y: System, last: nat, verify: Verifier)
    requires FirstPhase(file, y, last) && CanMove(y, Resend)
    ensures FirstPhase(file, Moved(file, y, Resend, verify), last)
  {
    var z, k := Moved(file, y, Resend, verify), Handled(file, y);
    assert Sent(file, z.resent) == Sent(file, y.resent) + [FileFinish];
    assert z.wire + z.stream == Sent(file, z.resent)[k..];
    assert Sent(file, z.resent)[..k] == Sent(file, y.resent)[..k];
  }

  lemma ClientTakeOwes(file: seq<Byte>, y: System, verify: Verifier)
    requires CanMove(y, ClientTake)
    ensures var z := Moved(file, y, ClientTake, verify);
            && (forall s :: Owed(file, y, s) ==> Owed(file, z, s))
            && (DoneOwed(y) ==> DoneOwed(z))
            && (z.replay != [] ==> z.replay[|z.replay| - 1].ReTransLostBagFinished?)
  {
    var z, msg := Moved(file, y, ClientTake, verify), y.v.out[y.taken];
    if msg.TellLostBag? {
      assert z.replay[|z.replay| - 1] == ReTransLostBagFinished;
      forall s | s in msg.missing
        ensures Bag(file, s) in z.replay
      {
        var i :| 0 <= i < |msg.missing| && msg.missing[i] == s;
        assert z.replay[i] == Bag(file, s);
      }
    }
  }

  lemma ClientTakeBase(file: seq<Byte>, y: System, verify: Verifier)
    requires OnwardBase(file, y) && CanMove(y, ClientTake)
    ensures OnwardBase(file, Moved(file, y, ClientTake, verify))
  {
    ClientTakeOwes(file, y, verify);
  }

  lemma ClientTakeOnward(file: seq<Byte>, y: System, last: nat, verify: Verifier)
    requires Going(file, y, last) && CanMove(y, ClientTake)
    ensures Going(file, Moved(file, y, ClientTake, verify), last)
  {
    ClientTakeBase(file, y, verify);
    ClientTakeOwes(file, y, verify);
  }

  lemma ThreadBase(file: seq<Byte>, y: System, e: Event, verify: Verifier)
    requires OnwardBase(file, y) && CanMove(y, Thread(e)) && !e.Wake? && !e.Check?
    ensures OnwardBase(file, Moved(file, y, Thread(e), verify))
  {
    StepKeepsFaithful(file, y.v, e, verify);
  }

  /** The phase depends on the messages and on what is received, not on what is flushed. */
  lemma SamePhase(file: seq<Byte>, y: System, z: System, last: nat)
    requires z.stream == y.stream && z.replay == y.replay && z.wire == y.wire && z.taken == y.taken
    requires z.resent == y.resent
    requires y.v.out <= z.v.out && (NoneAsked(y.v.out) ==> NoneAsked(z.v.out)) && z.v.finalAccepted == y.v.finalAccepted
    requires z.v.ring.flags == y.v.ring.flags && z.v.ring.last == y.v.ring.last && z.v.ring.window == y.v.ring.window
    requires z.v.starting == y.v.starting
    requires if NoneAsked(y.v.out) then FirstPhase(file, y, last) else AllOwed(file, y)
    ensures if NoneAsked(z.v.out) then FirstPhase(file, z, last) else AllOwed(file, z)
  {
    OwedSurvivesOut(file, y, z);
    AskedSurvivesOut(y.v.out, z.v.out);
  }

  lemma ThreadOnward(file: seq<Byte>, y: System, e: Event, last: nat, verify: Verifier)
    requires Going(file, y, last) && CanMove(y, Thread(e)) && !e.Wake? && !e.Check?
    ensures Going(file, Moved(file, y, Thread(e), verify), last)
  {
    ThreadBase(file, y, e, verify);
    SamePhase(file, y, Moved(file, y, Thread(e), verify), last);
  }

  lemma WakeBase(file: seq<Byte>, y: System, verify: Verifier)
    requires OnwardBase(file, y) && CanMove(y, Thread(Wake)) && verify(file)
    ensures OnwardBase(file, Moved(file, y, Thread(Wake), verify))
    ensures Moved(file, y, Thread(Wake), verify).v == y.v.(waiting := y.v.waiting - 1, out := y.v.out + [FileComplete])
  {
    var z := Moved(file, y, Thread(Wake), verify);
    PrefixAll(file, TotalPackets(|file|));
    assert z.v.out[|y.v.out|] == FileComplete;
  }

  lemma WakeOnward(file: seq<Byte>, y: System, last: nat, verify: Verifier)
    requires Going(file, y, last) && CanMove(y, Thread(Wake)) && verify(file)
    ensures Going(file, Moved(file, y, Thread(Wake), verify), last)
  {
    var z := Moved(file, y, Thread(Wake), verify);
    WakeBase(file, y, verify);
    SamePhase(file, y, z, last);
  }

  /** Nothing owed is lost when the server only appends to what it sent. */
  lemma OwedSurvivesOut(file: seq<Byte>, y: System, z: System)
    requires z.stream == y.stream && z.replay == y.replay && z.wire == y.wire && z.taken == y.taken
    requires y.v.out <= z.v.out
    ensures forall s :: Owed(file, y, s) ==> Owed(file, z, s)
  {
  }

  lemma AskedSurvivesOut(out: seq<ServerMsg>, more: seq<ServerMsg>)
    requires out <= more
    ensures NoneAsked(more) ==> NoneAsked(out)
  {
  }

  // ----- the server handles a message -----

  /** The plan's data messages: exactly the packets not skipped, ascending; the last packet comes last. */
  lemma PlanData(file: seq<Byte>, k: nat)
    requires |file| > 0 && k < |Plan(file)| - 1
    ensures var data, total := Streamed(file, TotalPackets(|file|)), TotalPackets(|file|);
            && k < |data| && Plan(file)[k] == data[k] && data[k].FileDataBag?
            && data[k].seqNo < total && !Skipped(file, data[k].seqNo) && data[k] == Bag(file, data[k].seqNo)
            && Bag(file, data[k].seqNo) !in Plan(file)[..k]
  {
    var data, total := Streamed(file, TotalPackets(|file|)), TotalPackets(|file|);
    StreamedExactly(file, total, data[k]);
    assert data[k] in data;
    assert Plan(file)[..k] == data[..k];
  }

  lemma SentData(file: seq<Byte>, resent: nat, k: nat)
    requires k < |Sent(file, resent)|
    ensures k < |Plan(file)| - 1 ==> Sent(file, resent)[k] == Plan(file)[k]
    ensures k >= |Plan(file)| - 1 ==> Sent(file, resent)[k] == FileFinish
    ensures k < |Plan(file)| ==> Sent(file, resent)[..k] == Plan(file)[..k]
  {
  }

  lemma LastPacketComesLast(file: seq<Byte>)
    requires |file| > 0 && !Skipped(file, TotalPackets(|file|) - 1)
    ensures var data := Streamed(file, TotalPackets(|file|));
            data != [] && data[|data| - 1] == Bag(file, TotalPackets(|file|) - 1)
  {
  }

  lemma SkippedBelow(file: seq<Byte>, u: nat, s: nat)
    requires u < TotalPackets(|file|) && s < TotalPackets(|file|) && Skipped(file, u) && !Skipped(file, s)
    ensures u < s
  {
  }

  /** In the small-file case every packet handed over is received. */
  lemma DataReceived(file: seq<Byte>, v: Server, s: nat, data: seq<Byte>, verify: Verifier)
    requires v.ring.Frontier() && s < |v.ring.flags| <= WINDOW_SIZE && Enabled(v, Data(s, data))
    ensures var w := Step(v, Data(s, data), verify); w.ring.flags == v.ring.flags[s := true]
    ensures var w := Step(v, Data(s, data), verify); w.ring.last == if s < v.ring.window then v.ring.last else s
  {
  }

  lemma WireHead(file: seq<Byte>, y: System, z: System)
    requires y.wire != [] && z.wire == y.wire[1..] && z.stream == y.stream && z.replay == y.replay && z.taken == y.taken
    requires y.v.out <= z.v.out
    ensures forall m :: m in y.wire && m != y.wire[0] ==> m in z.wire
    ensures forall s :: Owed(file, y, s) && Bag(file, s) != y.wire[0] ==> Owed(file, z, s)
    ensures DoneOwed(y) && !y.wire[0].ReTransLostBagFinished? ==> DoneOwed(z)
  {
  }

  /** In the first phase the message at hand is the next one of the plan. */
  lemma FirstPhaseHead(file: seq<Byte>, y: System, last: nat)
    requires FirstPhase(file, y, last) && |file| > 0 && |y.v.ring.flags| == TotalPackets(|file|)
    requires y.wire != [] && y.wire[0].FileDataBag?
    ensures var k, s := Handled(file, y), y.wire[0].seqNo;
            && 0 <= k < |Plan(file)| - 1 && y.wire[0] == Sent(file, y.resent)[k] == Bag(file, s)
            && s < |y.v.ring.flags| && !Skipped(file, s) && !y.v.ring.flags[s]
            && LastAfter(file, k + 1, last) == s
  {
    var k := Handled(file, y);
    assert (y.wire + y.stream)[0] == y.wire[0] == Sent(file, y.resent)[k];
    SentData(file, y.resent, k);
    PlanData(file, k);
  }

  /** The first phase goes on while nothing is asked. */
  lemma FirstPhaseNext(file: seq<Byte>, y: System, z: System, last: nat)
    requires FirstPhase(file, y, last) && |file| > 0 && |y.v.ring.flags| == TotalPackets(|file|)
    requires y.wire != [] && y.wire[0].FileDataBag? && y.wire[0].seqNo < |y.v.ring.flags|
    requires z.wire == y.wire[1..] && z.stream == y.stream && z.replay == y.replay && z.resent == y.resent
    requires z.v.starting == y.v.starting && z.v.finalAccepted == y.v.finalAccepted
    requires z.v.ring.flags == y.v.ring.flags[y.wire[0].seqNo := true] && z.v.ring.last == y.wire[0].seqNo
    ensures FirstPhase(file, z, last)
  {
    var k, s, plan := Handled(file, y), y.wire[0].seqNo, Sent(file, y.resent);
    FirstPhaseHead(file, y, last);
    assert z.wire + z.stream == (y.wire + y.stream)[1..] == plan[k + 1..];
    assert plan[..k + 1] == plan[..k] + [plan[k]];
    forall u | 0 <= u < |z.v.ring.flags|
      ensures z.v.ring.flags[u] <==> Bag(file, u) in plan[..k + 1]
    {
      assert Bag(file, u) == plan[k] <==> u == s;
    }
  }

  /** The first request covers everything skipped: it is made right after a streamed packet. */
  lemma FirstRequestCovers(file: seq<Byte>, z: System, s: nat)
    requires z.v.ring.Frontier() && |z.v.ring.flags| == TotalPackets(|file|) && Covered(file, z)
    requires s < TotalPackets(|file|) && !Skipped(file, s) && z.v.ring.last == s
    requires exists i :: z.taken <= i < |z.v.out| && z.v.out[i].TellLostBag? && z.v.out[i].missing == Missing(z.v.ring)
    ensures AllOwed(file, z)
  {
    GapReportedExactly(z.v.ring);
    var i :| z.taken <= i < |z.v.out| && z.v.out[i].TellLostBag? && z.v.out[i].missing == Missing(z.v.ring);
    forall u | 0 <= u < |z.v.ring.flags| && !z.v.ring.flags[u]
      ensures Owed(file, z, u)
    {
      if Skipped(file, u) {
        SkippedBelow(file, u, s);
        assert u in z.v.out[i].missing;
      }
    }
  }

  lemma DataCovered(file: seq<Byte>, y: System, verify: Verifier)
    requires Covered(file, y) && y.v.ring.Frontier() && |y.v.ring.flags| <= WINDOW_SIZE
    requires CanMove(y, ServerTake) && Live(y.v) && y.wire[0].FileDataBag?
    ensures Covered(file, Moved(file, y, ServerTake, verify))
  {
  }

  lemma DataFaithful(file: seq<Byte>, v: Server, m: ClientMsg, verify: Verifier)
    requires Faithful(file, v.ring) && WithinLag(v.ring) && TotalPackets(|file|) <= WINDOW_SIZE
    requires m.FileDataBag? && HonestMsg(file, m) && Enabled(v, EventOf(m)) && RequestVerify !in v.out
    ensures var w := Step(v, EventOf(m), verify);
            && Faithful(file, w.ring) && WithinLag(w.ring) && v.out <= w.out && RequestVerify !in w.out
            && w.finalAccepted == v.finalAccepted && w.starting == v.starting && (Checking(w) <==> Checking(v))
            && (Live(w) ==> Live(v))
  {
    StepKeepsFaithful(file, v, EventOf(m), verify);
  }

  lemma DataBase(file: seq<Byte>, y: System, verify: Verifier)
    requires y.taken <= |y.v.out| && AllHonest(file, y.wire)
    requires OnwardBase(file, y) && TotalPackets(|file|) <= WINDOW_SIZE
    requires CanMove(y, ServerTake) && Live(y.v) && y.wire[0].FileDataBag?
    ensures OnwardBase(file, Moved(file, y, ServerTake, verify))
  {
    assert HonestMsg(file, y.wire[0]);
    DataFaithful(file, y.v, y.wire[0], verify);
    DataCovered(file, y, verify);
    WireHead(file, y, Moved(file, y, ServerTake, verify));
  }

  /** The first phase goes on, or ends with a request. */
  lemma DataFirst(file: seq<Byte>, y: System, last: nat, verify: Verifier)
    requires y.taken <= |y.v.out| && AllHonest(file, y.wire)
    requires OnwardBase(file, y) && NoneAsked(y.v.out) && FirstPhase(file, y, last)
    requires 0 < TotalPackets(|file|) <= WINDOW_SIZE
    requires CanMove(y, ServerTake) && Live(y.v) && y.wire[0].FileDataBag?
    requires Covered(file, Moved(file, y, ServerTake, verify))
    ensures var z := Moved(file, y, ServerTake, verify);
            if NoneAsked(z.v.out) then FirstPhase(file, z, last) else AllOwed(file, z)
  {
    var z, s, e := Moved(file, y, ServerTake, verify), y.wire[0].seqNo, EventOf(y.wire[0]);
    FirstPhaseHead(file, y, last);
    assert s >= y.v.ring.window;
    DataReceived(file, y.v, s, y.wire[0].data, verify);
    if NoneAsked(z.v.out) {
      FirstPhaseNext(file, y, z, last);
    } else {
      AcceptKeepsFrontier(y.v.ring, s, y.wire[0].data);
      DataAsks(y.v, e, verify);
      FirstRequestCovers(file, z, s);
    }
  }

  /** After the first request every missing packet stays owed. */
  lemma DataLater(file: seq<Byte>, y: System, verify: Verifier)
    requires y.v.ring.Frontier() && |y.v.ring.flags| == TotalPackets(|file|) <= WINDOW_SIZE && AllHonest(file, y.wire)
    requires !NoneAsked(y.v.out) && AllOwed(file, y)
    requires CanMove(y, ServerTake) && Live(y.v) && y.wire[0].FileDataBag?
    ensures var z := Moved(file, y, ServerTake, verify); !NoneAsked(z.v.out) && AllOwed(file, z)
  {
    var z := Moved(file, y, ServerTake, verify);
    assert HonestMsg(file, y.wire[0]);
    DataReceived(file, y.v, y.wire[0].seqNo, y.wire[0].data, verify);
    StepEmits(y.v, EventOf(y.wire[0]), verify);
    AskedSurvivesOut(y.v.out, z.v.out);
    WireHead(file, y, z);
  }

  lemma DataOnward(file: seq<Byte>, y: System, last: nat, verify: Verifier)
    requires y.taken <= |y.v.out| && AllHonest(file, y.wire)
    requires Going(file, y, last) && 0 < TotalPackets(|file|) <= WINDOW_SIZE
    requires CanMove(y, ServerTake) && Live(y.v) && y.wire[0].FileDataBag?
    ensures Going(file, Moved(file, y, ServerTake, verify), last)
  {
    DataBase(file, y, verify);
    if NoneAsked(y.v.out) {
      DataFirst(file, y, last, verify);
    } else {
      DataLater(file, y, verify);
    }
  }

  lemma DataAsks(v: Server, e: Event, verify: Verifier)
    requires Enabled(v, e) && NoneAsked(v.out) && !NoneAsked(Step(v, e, verify).out)
    ensures var w := Step(v, e, verify);
            exists i :: |v.out| <= i < |w.out| && w.out[i].TellLostBag? && w.out[i].missing == Missing(w.ring)
  {
  }

  /** In the first phase FileFinish is handled last. */
  lemma FinishComesLast(file: seq<Byte>, y: System, last: nat)
    requires FirstPhase(file, y, last) && |file| > 0 && y.wire != [] && y.wire[0].FileFinish?
    requires y.resent > 0 ==> y.stream == []
    ensures Handled(file, y) >= |Plan(file)| - 1 && y.stream == []
    ensures y.resent == 0 ==> y.wire == [FileFinish]
  {
    var k := Handled(file, y);
    assert (y.wire + y.stream)[0] == y.wire[0] == Sent(file, y.resent)[k];
    SentData(file, y.resent, k);
    if k < |Plan(file)| - 1 {
      PlanData(file, k);
    }
    if y.resent == 0 {
      assert y.wire == [y.wire[0]] + y.wire[1..];
    }
  }

  /** When at most FileFinish is left of the plan, no packet above m_LastReceivedSeq is missing. */
  lemma StreamedToTheEnd(file: seq<Byte>, y: System, last: nat)
    requires FirstPhase(file, y, last) && Reliable(file, last) && |y.v.ring.flags| == TotalPackets(|file|)
    requires Handled(file, y) >= |Plan(file)| - 1
    ensures var t := y.v.ring; forall s :: t.last <= s < |t.flags| ==> t.flags[s]
  {
    var total, k := TotalPackets(|file|), |Streamed(file, TotalPackets(|file|))|;
    if Skipped(file, total - 1) {
      NothingSent(file);
    } else {
      LastPacketComesLast(file);
      assert y.v.ring.last == total - 1;
      assert Sent(file, y.resent)[..Handled(file, y)][k - 1] == Bag(file, total - 1);
    }
  }

  /** FileFinish handled with nothing asked so far: its check sees the whole file. */
  lemma FinishSeesAll(file: seq<Byte>, y: System, last: nat)
    requires FirstPhase(file, y, last) && Reliable(file, last) && y.v.finalAccepted
    requires y.v.ring.Frontier() && |y.v.ring.flags| == TotalPackets(|file|)
    ensures var t := y.v.ring; forall s :: 0 <= s < |t.flags| && !t.flags[s] ==> s in Missing(t)
  {
    StreamedToTheEnd(file, y, last);
    GapReportedExactly(y.v.ring);
  }

  /** If even the last packet is skipped nothing is sent at all. */
  lemma NothingSent(file: seq<Byte>)
    requires |file| > 0 && Skipped(file, TotalPackets(|file|) - 1)
    ensures Streamed(file, TotalPackets(|file|)) == []
  {
    var total := TotalPackets(|file|);
    var data := Streamed(file, total);
    if data != [] {
      StreamedExactly(file, total, data[0]);
      assert data[0] in data;
      BlockBounds(file, data[0].seqNo);
    }
  }

  lemma FinishOnward(file: seq<Byte>, y: System, last: nat, verify: Verifier)
    requires y.taken <= |y.v.out| && |file| > 0
    requires Going(file, y, last)
    requires CanMove(y, ServerTake) && Live(y.v) && y.wire[0].FileFinish?
    ensures Going(file, Moved(file, y, ServerTake, verify), last)
  {
    var z := Moved(file, y, ServerTake, verify);
    FinishBase(file, y, verify);
    AskedSurvivesOut(y.v.out, z.v.out);
    if NoneAsked(y.v.out) {
      FinishComesLast(file, y, last);
      PhaseEnds(file, y, z, last);
    } else {
      WireHead(file, y, z);
    }
  }

  lemma FinishBase(file: seq<Byte>, y: System, verify: Verifier)
    requires y.taken <= |y.v.out|
    requires OnwardBase(file, y)
    requires CanMove(y, ServerTake) && Live(y.v) && y.wire[0].FileFinish?
    ensures OnwardBase(file, Moved(file, y, ServerTake, verify))
  {
    WireHead(file, y, Moved(file, y, ServerTake, verify));
  }

  /** FileFinish is the end of the plan. */
  lemma PhaseEnds(file: seq<Byte>, y: System, z: System, last: nat)
    requires FirstPhase(file, y, last) && Handled(file, y) >= |Plan(file)| - 1
    requires y.stream == z.stream == z.replay == [] && y.wire != [] && z.wire == y.wire[1..] && z.resent == y.resent
    requires z.v.ring == y.v.ring && z.v.finalAccepted && z.v.starting > 0
    ensures FirstPhase(file, z, last)
  {
    var k, sent := Handled(file, y), Sent(file, y.resent);
    SentData(file, y.resent, k);
    assert y.wire == y.wire + y.stream == sent[k..];
    assert z.wire + z.stream == sent[k + 1..];
    assert sent[..k + 1] == sent[..k] + [FileFinish];
  }

  /** A check makes one request, or waits. */
  lemma CheckBase(file: seq<Byte>, y: System, verify: Verifier)
    requires y.taken <= |y.v.out|
    requires OnwardBase(file, y) && CanMove(y, Thread(Check))
    ensures OnwardBase(file, Moved(file, y, Thread(Check), verify))
    ensures Missing(y.v.ring) != [] ==>
              Moved(file, y, Thread(Check), verify).v.out == y.v.out + [TellLostBag(Missing(y.v.ring))]
  {
    var z := Moved(file, y, Thread(Check), verify);
    if Missing(y.v.ring) != [] {
      assert z.v.out[|y.v.out|].TellLostBag?;
    }
  }

  /** With nothing asked so far it asks for everything missing, or everything is received. */
  lemma CheckFirst(file: seq<Byte>, y: System, last: nat, verify: Verifier)
    requires y.taken <= |y.v.out|
    requires Going(file, y, last) && NoneAsked(y.v.out) && Reliable(file, last) && CanMove(y, Thread(Check))
    ensures Going(file, Moved(file, y, Thread(Check), verify), last)
  {
    var z := Moved(file, y, Thread(Check), verify);
    CheckBase(file, y, verify);
    FinishSeesAll(file, y, last);
    if Missing(y.v.ring) != [] {
      assert z.v.out[|y.v.out|] == TellLostBag(Missing(y.v.ring));
      assert AllOwed(file, z);
    }
  }

  lemma CheckOnward(file: seq<Byte>, y: System, last: nat, verify: Verifier)
    requires y.taken <= |y.v.out|
    requires Going(file, y, last) && Reliable(file, last) && CanMove(y, Thread(Check))
    ensures Going(file, Moved(file, y, Thread(Check), verify), last)
  {
    var z := Moved(file, y, Thread(Check), verify);
    if NoneAsked(y.v.out) {
      CheckFirst(file, y, last, verify);
    } else {
      CheckBase(file, y, verify);
      OwedSurvivesOut(file, y, z);
      AskedSurvivesOut(y.v.out, z.v.out);
    }
  }

  lemma ReCheckOnward(file: seq<Byte>, y: System, last: nat, verify: Verifier)
    requires y.taken <= |y.v.out|
    requires Going(file, y, last)
    requires CanMove(y, ServerTake) && Live(y.v) && y.wire[0].ReTransLostBagFinished?
    ensures Going(file, Moved(file, y, ServerTake, verify), last)
  {
    var z := Moved(file, y, ServerTake, verify);
    WireHead(file, y, z);
    AskedSurvivesOut(y.v.out, z.v.out);
    if NoneAsked(y.v.out) {
      ReplayDoneWasAsked(file, y, last);
    }
  }

  lemma ReplayDoneWasAsked(file: seq<Byte>, y: System, last: nat)
    requires FirstPhase(file, y, last) && y.wire != [] && |file| > 0
    ensures !y.wire[0].ReTransLostBagFinished?
  {
    var k := Handled(file, y);
    assert (y.wire + y.stream)[0] == y.wire[0] == Sent(file, y.resent)[k];
    SentData(file, y.resent, k);
    if k < |Plan(file)| - 1 {
      PlanData(file, k);
    }
  }

  lemma CrashOnward(file: seq<Byte>, y: System, last: nat, verify: Verifier)
    requires Going(file, y, last) && CanMove(y, ServerTake) && !Live(y.v)
    ensures Going(file, Moved(file, y, ServerTake, verify), last)
  {
    SamePhase(file, y, Moved(file, y, ServerTake, verify), last);
  }

  lemma MoveOnward(file: seq<Byte>, y: System, m: Move, last: nat, verify: Verifier)
    requires Onward(file, y, last) && Reliable(file, last) && verify(file) && CanMove(y, m)
    ensures Onward(file, Moved(file, y, m, verify), last)
  {
    MoveKeepsSane(file, y, m, verify);
    match m
    case StreamSend => StreamSendOnward(file, y, last, verify);
    case ReplaySend => ReplaySendOnward(file, y, last, verify);
    case Resend => ResendOnward(file, y, last, verify);
    case ClientTake => ClientTakeOnward(file, y, last, verify);
    case Thread(e) =>
      if e.Wake? {
        WakeOnward(file, y, last, verify);
      } else if e.Check? {
        CheckOnward(file, y, last, verify);
      } else {
        ThreadOnward(file, y, e, last, verify);
      }
    case ServerTake =>
      if Live(y.v) {
        match y.wire[0]
        case FileDataBag(_, _) => DataOnward(file, y, last, verify);
        case FileFinish => FinishOnward(file, y, last, verify);
        case ReTransLostBagFinished => ReCheckOnward(file, y, last, verify);
      } else {
        CrashOnward(file, y, last, verify);
      }
  }

  lemma BeginBase(file: seq<Byte>, last: nat, env: Setting)
    requires |file| > 0
    ensures OnwardBase(file, Begin(file, last, env))
  {
    var y, total := Begin(file, last, env), TotalPackets(|file|);
    StartFaithful(file, last);
    forall s | 0 <= s < total && !Skipped(file, s)
      ensures Bag(file, s) in y.stream
    {
      StreamedExactly(file, total, Bag(file, s));
    }
    assert y.stream[|y.stream| - 1] == FileFinish;
  }

  lemma BeginPhase(file: seq<Byte>, last: nat, env: Setting)
    requires |file| > 0
    ensures FirstPhase(file, Begin(file, last, env), last)
  {
    var y, plan := Begin(file, last, env), Plan(file);
    assert Handled(file, y) == 0 && y.wire + y.stream == plan[0..];
    assert forall s :: 0 <= s < |y.v.ring.flags| ==> !y.v.ring.flags[s] && Bag(file, s) !in plan[..0];
  }

  lemma BeginOnward(file: seq<Byte>, last: nat, env: Setting)
    requires |file| > 0
    ensures Onward(file, Begin(file, last, env), last)
  {
    BeginSane(file, last, env);
    BeginBase(file, last, env);
    BeginPhase(file, last, env);
  }

  lemma {:induction false} PlayOnward(file: seq<Byte>, y: System, ms: seq<Move>, last: nat, verify: Verifier)
    requires Onward(file, y, last) && Reliable(file, last) && verify(file) && ValidMoves(file, y, ms, verify)
    ensures Onward(file, Play(file, y, ms, verify), last)
    decreases |ms|
  {
    if ms != [] {
      MoveOnward(file, y, ms[0], last, verify);
      PlayOnward(file, Moved(file, y, ms[0], verify), ms[1..], last, verify);
    }
  }
}
