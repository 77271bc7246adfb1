/** What the server asks for when the whole file fits into the first window: only packets that SendFile dropped, and
    so at most twenty of them. */
module Requests {
  import opened Streams
  import opened Packets
  import opened Sender
  import opened Transfer
  import opened Runs
  import opened Upload
  import opened Outcome

  /** The messages that come from SendFile: a replay never brings them if only dropped packets are asked for. */
  predicate FromPlan(file: seq<Byte>, m: ClientMsg) {
    m.FileFinish? || (m.FileDataBag? && !Skipped(file, m.seqNo))
  }

  function IfPlanned(file: seq<Byte>, m: ClientMsg): seq<ClientMsg> {
    if FromPlan(file, m) then [m] else []
  }

  function Planned(file: seq<Byte>, q: seq<ClientMsg>): seq<ClientMsg> {
    if q == [] then [] else IfPlanned(file, q[0]) + Planned(file, q[1..])
  }

  lemma {:induction false} PlannedSnoc(file: seq<Byte>, q: seq<ClientMsg>, m: ClientMsg)
    ensures Planned(file, q + [m]) == Planned(file, q) + IfPlanned(file, m)
  {
    if q == [] {
      assert Planned(file, [m][1..]) == [];
    } else {
      PlannedSnoc(file, q[1..], m);
      assert (q + [m])[0] == q[0] && (q + [m])[1..] == q[1..] + [m];
      ConcatAssociates(IfPlanned(file, q[0]), Planned(file, q[1..]), IfPlanned(file, m));
    }
  }

  ghost predicate OnlyDropped(file: seq<Byte>, m: ServerMsg) {
    m.TellLostBag? ==> forall s :: s in m.missing ==> Skipped(file, s)
  }

  /** What is missing below the last accepted packet was dropped by SendFile. */
  ghost predicate GapsAreDropped(file: seq<Byte>, t: Ring) {
    forall s :: 0 <= s < |t.flags| && !t.flags[s] && !Skipped(file, s) ==> s > t.last
  }

  /** The server has handled the first `k` messages that SendFile and the timer send, and replays bring dropped packets
      only. */
  ghost predicate Modest(file: seq<Byte>, y: System, k: nat) {
    && y.v.ring.Frontier() && |y.v.ring.flags| == TotalPackets(|file|) <= WINDOW_SIZE && k <= |Sent(file, y.resent)|
    && y.taken <= |y.v.out|
    && Planned(file, y.wire) + y.stream == Sent(file, y.resent)[k..]
    && (forall s :: 0 <= s < |y.v.ring.flags| && Bag(file, s) in Sent(file, y.resent)[..k] ==> y.v.ring.flags[s])
    && (y.v.ring.window > 0 || y.v.starting > 0 || k > 0 ==> GapsAreDropped(file, y.v.ring))
    && (forall i :: 0 <= i < |y.replay| ==> !FromPlan(file, y.replay[i]))
    && (forall i :: 0 <= i < |y.v.out| ==> OnlyDropped(file, y.v.out[i]))
  }

  lemma PlanIsPlanned(file: seq<Byte>, resent: nat, i: nat)
    requires |file| > 0 && i < |Sent(file, resent)|
    ensures FromPlan(file, Sent(file, resent)[i])
  {
    SentData(file, resent, i);
    if i < |Plan(file)| - 1 {
      PlanData(file, i);
    }
  }

  lemma InPlan(file: seq<Byte>, u: nat)
    requires u < TotalPackets(|file|) && !Skipped(file, u)
    ensures Bag(file, u) in Plan(file)
  {
    StreamedExactly(file, TotalPackets(|file|), Bag(file, u));
    var i :| 0 <= i < |Streamed(file, TotalPackets(|file|))| && Streamed(file, TotalPackets(|file|))[i] == Bag(file, u);
    assert Plan(file)[i] == Bag(file, u);
  }

  /** What the plan brings after packet `s` has a higher number. */
  lemma LaterInPlan(file: seq<Byte>, resent: nat, k: nat, s: nat, u: nat)
    requires |file| > 0 && k < |Sent(file, resent)| && Sent(file, resent)[k] == Bag(file, s)
    requires u < TotalPackets(|file|) && !Skipped(file, u) && Bag(file, u) !in Sent(file, resent)[..k + 1]
    ensures u > s
  {
    InPlan(file, u);
    SentData(file, resent, k);
    var j :| 0 <= j < |Plan(file)| && Plan(file)[j] == Bag(file, u);
    StreamedExactly(file, TotalPackets(|file|), Bag(file, u));
    assert Sent(file, resent)[j] == Plan(file)[j];
    assert Plan(file)[j] !in Sent(file, resent)[..k + 1] && j > k;
  }

  lemma MissingIsDropped(file: seq<Byte>, t: Ring)
    requires t.Frontier() && GapsAreDropped(file, t)
    ensures OnlyDropped(file, TellLostBag(Missing(t)))
  {
    GapReportedExactly(t);
  }

  lemma EmitsDropped(file: seq<Byte>, v: Server, w: Server)
    requires Emits(v, w) && w.ring.Frontier() && GapsAreDropped(file, w.ring)
    requires forall i :: 0 <= i < |v.out| ==> OnlyDropped(file, v.out[i])
    ensures forall i :: 0 <= i < |w.out| ==> OnlyDropped(file, w.out[i])
  {
    MissingIsDropped(file, w.ring);
    forall i | 0 <= i < |w.out|
      ensures OnlyDropped(file, w.out[i])
    {
      if i < |v.out| {
        assert w.out[i] == v.out[i];
      }
    }
  }

  /** The plan's next packet: everything after it is still to come. */
  lemma PlannedGaps(file: seq<Byte>, resent: nat, t: Ring, k: nat, s: nat)
    requires |file| > 0 && k < |Sent(file, resent)| && Sent(file, resent)[k] == Bag(file, s)
    requires |t.flags| == TotalPackets(|file|)
    requires forall u :: 0 <= u < |t.flags| && Bag(file, u) in Sent(file, resent)[..k + 1] ==> t.flags[u]
    requires t.last == s || GapsAreDropped(file, t)
    ensures GapsAreDropped(file, t)
  {
    forall u | 0 <= u < |t.flags| && !t.flags[u] && !Skipped(file, u)
      ensures u > t.last
    {
      if t.last == s {
        LaterInPlan(file, resent, k, s, u);
      }
    }
  }

  lemma WirePlanned(file: seq<Byte>, y: System, k: nat)
    requires Modest(file, y, k) && y.wire != []
    ensures if FromPlan(file, y.wire[0])
            then k < |Sent(file, y.resent)| && y.wire[0] == Sent(file, y.resent)[k]
                 && Planned(file, y.wire[1..]) + y.stream == Sent(file, y.resent)[k + 1..]
            else Planned(file, y.wire[1..]) + y.stream == Sent(file, y.resent)[k..]
  {
    if FromPlan(file, y.wire[0]) {
      var q := Planned(file, y.wire) + y.stream;
      assert q[0] == y.wire[0] && q[1..] == Planned(file, y.wire[1..]) + y.stream;
    }
  }

  /** The server handles a data message. */
  lemma DataModest(file: seq<Byte>, y: System, k: nat, verify: Verifier)
    requires |file| > 0 && Modest(file, y, k) && AllHonest(file, y.wire)
    requires CanMove(y, ServerTake) && Live(y.v) && y.wire[0].FileDataBag?
    ensures GapsAreDropped(file, Moved(file, y, ServerTake, verify).v.ring)
    ensures FromPlan(file, y.wire[0]) ==>
              var t := Moved(file, y, ServerTake, verify).v.ring;
              forall u :: 0 <= u < |t.flags| && Bag(file, u) in Sent(file, y.resent)[..k + 1] ==> t.flags[u]
  {
    var z, head := Moved(file, y, ServerTake, verify), y.wire[0];
    assert HonestMsg(file, head);
    DataReceived(file, y.v, head.seqNo, head.data, verify);
    WirePlanned(file, y, k);
    if FromPlan(file, head) {
      assert Sent(file, y.resent)[..k + 1] == Sent(file, y.resent)[..k] + [head];
      PlannedGaps(file, y.resent, z.v.ring, k, head.seqNo);
    } else {
      forall u | 0 <= u < |z.v.ring.flags| && !z.v.ring.flags[u] && !Skipped(file, u)
        ensures u > z.v.ring.last
      {
        SkippedBelow(file, head.seqNo, u);
      }
    }
  }

  /** FileFinish comes after the data, with every packet of the plan received. */
  lemma FinishModest(file: seq<Byte>, y: System, k: nat)
    requires |file| > 0 && Modest(file, y, k) && y.wire != [] && y.wire[0].FileFinish?
    ensures GapsAreDropped(file, y.v.ring)
  {
    WirePlanned(file, y, k);
    SentData(file, y.resent, k);
    if k < |Plan(file)| - 1 {
      PlanData(file, k);
    }
    forall u | 0 <= u < |y.v.ring.flags| && !Skipped(file, u)
      ensures y.v.ring.flags[u]
    {
      InPlan(file, u);
      var j :| 0 <= j < |Plan(file)| && Plan(file)[j] == Bag(file, u);
      assert Sent(file, y.resent)[..k][j] == Bag(file, u);
    }
  }

  /** The server handles a message: what is missing below the last accepted packet was dropped. */
  lemma HeadModest(file: seq<Byte>, y: System, k: nat, verify: Verifier)
    requires |file| > 0 && Modest(file, y, k) && Sane(file, y) && CanMove(y, ServerTake) && Live(y.v)
    ensures var t, next := Moved(file, y, ServerTake, verify).v.ring, if FromPlan(file, y.wire[0]) then k + 1 else k;
            && GapsAreDropped(file, t) && next <= |Sent(file, y.resent)|
            && forall u :: 0 <= u < |t.flags| && Bag(file, u) in Sent(file, y.resent)[..next] ==> t.flags[u]
  {
    WirePlanned(file, y, k);
    StepRing(y.v, EventOf(y.wire[0]), verify);
    match y.wire[0]
    case FileDataBag(_, _) =>
      DataModest(file, y, k, verify);
      StepFrontier(y.v, EventOf(y.wire[0]), verify);
    case FileFinish =>
      FinishModest(file, y, k);
      assert Sent(file, y.resent)[..k + 1] == Sent(file, y.resent)[..k] + [FileFinish];
    case ReTransLostBagFinished =>
      ReplayDoneAnswers(file, y);
  }

  lemma ServerTakeModest(file: seq<Byte>, y: System, k: nat, verify: Verifier) returns (next: nat)
    requires |file| > 0 && Modest(file, y, k) && Sane(file, y) && CanMove(y, ServerTake) && Live(y.v)
    ensures Modest(file, Moved(file, y, ServerTake, verify), next)
  {
    var z, e := Moved(file, y, ServerTake, verify), EventOf(y.wire[0]);
    next := if FromPlan(file, y.wire[0]) then k + 1 else k;
    WirePlanned(file, y, k);
    HeadModest(file, y, k, verify);
    StepFrontier(y.v, e, verify);
    StepEmits(y.v, e, verify);
    EmitsDropped(file, y.v, z.v);
  }

  lemma ReplayIsDropped(file: seq<Byte>, missing: seq<nat>)
    requires OnlyDropped(file, TellLostBag(missing))
    ensures var q := Replayed(file, missing) + [ReTransLostBagFinished];
            forall i :: 0 <= i < |q| ==> !FromPlan(file, q[i])
  {
    assert forall i :: 0 <= i < |missing| ==> missing[i] in missing;
  }

  lemma ClientTakeModest(file: seq<Byte>, y: System, k: nat, verify: Verifier)
    requires Modest(file, y, k) && CanMove(y, ClientTake)
    ensures Modest(file, Moved(file, y, ClientTake, verify), k)
  {
    var msg := y.v.out[y.taken];
    assert OnlyDropped(file, msg);
    if msg.TellLostBag? {
      ReplayIsDropped(file, msg.missing);
    }
  }

  lemma StreamSendModest(file: seq<Byte>, y: System, k: nat, verify: Verifier)
    requires |file| > 0 && Modest(file, y, k) && CanMove(y, StreamSend)
    ensures Modest(file, Moved(file, y, StreamSend, verify), k)
  {
    var head, p := y.stream[0], Planned(file, y.wire);
    assert (p + y.stream)[|p|] == head == Sent(file, y.resent)[k + |p|];
    PlanIsPlanned(file, y.resent, k + |p|);
    PlannedSnoc(file, y.wire, head);
    assert p + [head] + y.stream[1..] == p + y.stream;
  }

  lemma ResendModest(file: seq<Byte>, y: System, k: nat, verify: Verifier)
    requires Modest(file, y, k) && CanMove(y, Resend)
    ensures Modest(file, Moved(file, y, Resend, verify), k)
  {
    var sent := Sent(file, y.resent);
    PlannedSnoc(file, y.wire, FileFinish);
    assert Sent(file, y.resent + 1) == sent + [FileFinish];
    assert Planned(file, y.wire) + [] == Planned(file, y.wire);
    assert (sent + [FileFinish])[k..] == sent[k..] + [FileFinish] && (sent + [FileFinish])[..k] == sent[..k];
  }

  lemma ReplaySendModest(file: seq<Byte>, y: System, k: nat, verify: Verifier)
    requires Modest(file, y, k) && CanMove(y, ReplaySend)
    ensures Modest(file, Moved(file, y, ReplaySend, verify), k)
  {
    PlannedSnoc(file, y.wire, y.replay[0]);
    assert Planned(file, y.wire) + [] == Planned(file, y.wire);
  }

  lemma ThreadModest(file: seq<Byte>, y: System, e: Event, k: nat, verify: Verifier)
    requires Modest(file, y, k) && CanMove(y, Thread(e))
    ensures Modest(file, Moved(file, y, Thread(e), verify), k)
  {
    StepFrontier(y.v, e, verify);
    if e.Check? {
      StepEmits(y.v, e, verify);
      EmitsDropped(file, y.v, Step(y.v, e, verify));
    }
  }

  lemma MoveModest(file: seq<Byte>, y: System, m: Move, k: nat, verify: Verifier) returns (next: nat)
    requires |file| > 0 && Modest(file, y, k) && Sane(file, y) && CanMove(y, m)
    ensures Modest(file, Moved(file, y, m, verify), next)
  {
    next := k;
    match m {
      case StreamSend => StreamSendModest(file, y, k, verify);
      case ReplaySend => ReplaySendModest(file, y, k, verify);
      case Resend => ResendModest(file, y, k, verify);
      case ClientTake => ClientTakeModest(file, y, k, verify);
      case Thread(e) => ThreadModest(file, y, e, k, verify);
      case ServerTake =>
        if Live(y.v) {
          next := ServerTakeModest(file, y, k, verify);
        }
    }
  }

  lemma {:induction false} PlayModest(file: seq<Byte>, y: System, ms: seq<Move>, k: nat, verify: Verifier)
      returns (end: nat)
    requires |file| > 0 && Modest(file, y, k) && Sane(file, y) && ValidMoves(file, y, ms, verify)
    ensures Modest(file, Play(file, y, ms, verify), end)
    decreases |ms|
  {
    end := k;
    if ms != [] {
      MoveKeepsSane(file, y, ms[0], verify);
      end := MoveModest(file, y, ms[0], k, verify);
      end := PlayModest(file, Moved(file, y, ms[0], verify), ms[1..], end, verify);
    }
  }

  lemma {:induction false} AscendingAtLeast(list: seq<nat>, i: nat)
    requires Ascending(list) && i < |list|
    ensures list[i] >= i
  {
    if i > 0 {
      AscendingAtLeast(list, i - 1);
    }
  }

  /** In every state of an upload of at most 1024 packets, every request asks for packets that SendFile dropped, and
      for at most twenty of them. */
  lemma RequestsAreSmall(file: seq<Byte>, last: nat, env: Setting, y: System, i: nat, verify: Verifier)
    requires 0 < TotalPackets(|file|) <= WINDOW_SIZE && Reachable(file, last, env, y, verify)
    requires i < |y.v.out| && y.v.out[i].TellLostBag?
    ensures |y.v.out[i].missing| <= 20
    ensures forall s :: s in y.v.out[i].missing ==> s < 20 && (s + 1) * 1024 <= |file|
  {
    var x := Begin(file, last, env);
    var ms :| ValidMoves(file, x, ms, verify) && Play(file, x, ms, verify) == y;
    BeginSane(file, last, env);
    assert Sent(file, 0) == Plan(file) && Planned(file, []) + Plan(file) == Sent(file, 0)[0..];
    var k := PlayModest(file, x, ms, 0, verify);
    PlaySane(file, x, ms, verify);
    var list := y.v.out[i].missing;
    assert GoodRequest(file, y.v.out[i], y.v.ring) && OnlyDropped(file, y.v.out[i]);
    AscendingAtLeast(list, |list| - 1);
    assert list[|list| - 1] in list;
    forall s | s in list
      ensures s < 20 && (s + 1) * 1024 <= |file|
    {
      DroppedBySize(file, s);
    }
  }

  lemma DroppedBySize(file: seq<Byte>, s: nat)
    ensures Skipped(file, s) <==> s < 20 && (s + 1) * 1024 <= |file|
  {
  }
}
