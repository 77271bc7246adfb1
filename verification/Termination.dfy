/** Every upload run ends: each move makes a lexicographic measure smaller. */
module Termination {
  import opened Streams
  import opened Packets
  import opened Sender
  import opened Transfer
  import opened Runs
  import opened Upload

  function Pow4(n: nat): (p: nat)
    ensures p > 0
  {
    if n == 0 then 1 else 4 * Pow4(n - 1)
  }

  lemma {:induction false} Pow4Grows(a: nat, b: nat)
    requires a <= b
    ensures Pow4(a) <= Pow4(b)
  {
    if a < b {
      Pow4Grows(a, b - 1);
    }
  }

  /** What a request starting at packet `first` can still cause: the fewer packets above it, the less. */
  function Weight(total: nat, first: nat): nat {
    if first >= total then 0 else Pow4(total - first)
  }

  lemma WeightShrinks(total: nat, a: nat, b: nat)
    requires a <= b
    ensures Weight(total, b) <= Weight(total, a)
    ensures a < b && a < total ==> 2 * Weight(total, b) + 2 < Weight(total, a)
  {
    if b < total {
      Pow4Grows(total - b, total - a);
      if a < b {
        Pow4Grows(total - b, total - a - 1);
        assert Pow4(total - a) == 4 * Pow4(total - a - 1);
      }
    } else if a < total {
      Pow4Grows(1, total - a);
      assert Pow4(1) == 4 * Pow4(0) == 4;
    }
  }

  function OpenWeight(total: nat, open: seq<nat>): nat {
    if open == [] then 0 else Weight(total, open[0]) + OpenWeight(total, open[1..])
  }

  function RequestWeight(total: nat, m: ServerMsg): nat {
    if m.TellLostBag? && m.missing != [] then Weight(total, m.missing[0]) else 0
  }

  function RequestsWeight(total: nat, out: seq<ServerMsg>): nat {
    if out == [] then 0 else RequestWeight(total, out[0]) + RequestsWeight(total, out[1..])
  }

  function Finishes(q: seq<ClientMsg>): nat { multiset(q)[FileFinish] }

  function Times(n: nat, unit: nat): nat {
    if n == 0 then 0 else unit + Times(n - 1, unit)
  }

  /** Requests and the occasions for new ones: open requests, the permission HandleData has, checks that have been
      started, and FileFinish. */
  function Potential(total: nat, y: System): nat
    requires y.taken <= |y.v.out|
  {
    OpenWeight(total, y.answering) + RequestsWeight(total, y.v.out[y.taken..])
    + (if y.v.able then Weight(total, y.v.ring.window) + 1 else 0)
    + Times(y.v.starting, Weight(total, y.v.ring.window) + 1)
    + Times(Finishes(y.stream) + Finishes(y.wire), Weight(total, 0) + 2)
  }

  function MsgWork(m: ServerMsg): nat {
    1 + if m.TellLostBag? then 4 * (|m.missing| + 1) else 0
  }

  function Work(out: seq<ServerMsg>): nat {
    if out == [] then 0 else MsgWork(out[0]) + Work(out[1..])
  }

  /** The steps a flusher has on its way to sleep; a packet may wake it again. */
  function ToSleep(f: Flusher): nat {
    match f
    case Looking => 2
    case AboutToWait => 1
    case Asleep => 0
  }

  /** A bound on the moves that remain if no new request is made. */
  function Remaining(total: nat, y: System): nat
    requires y.taken <= |y.v.out| && y.v.ring.next <= total
  {
    4 * |y.stream| + 4 * |y.replay| + 3 * |y.wire| + ToSleep(y.v.flusher) + Work(y.v.out[y.taken..])
    + 2 * (total - y.v.ring.next) + 3 * y.v.waiting + 2 * y.v.blocked + if y.crashed then 0 else 1
  }

  /** The part of Sane that the measure needs. */
  ghost predicate Measured(total: nat, y: System) {
    y.taken <= |y.v.out| && y.v.ring.Frontier() && |y.v.ring.flags| == total
  }

  ghost predicate Smaller(total: nat, z: System, y: System)
    requires Measured(total, y) && Measured(total, z)
  {
    || Potential(total, z) < Potential(total, y)
    || (Potential(total, z) == Potential(total, y) && Remaining(total, z) < Remaining(total, y))
  }

  lemma {:induction false} OpenWeightSnoc(total: nat, open: seq<nat>, x: nat)
    ensures OpenWeight(total, open + [x]) == OpenWeight(total, open) + Weight(total, x)
  {
    if open == [] {
      assert [x][1..] == [];
    } else {
      OpenWeightSnoc(total, open[1..], x);
      assert (open + [x])[1..] == open[1..] + [x];
    }
  }

  lemma {:induction false} OutSnoc(total: nat, out: seq<ServerMsg>, m: ServerMsg)
    ensures RequestsWeight(total, out + [m]) == RequestsWeight(total, out) + RequestWeight(total, m)
    ensures Work(out + [m]) == Work(out) + MsgWork(m)
  {
    if out == [] {
      assert [m][1..] == [];
    } else {
      OutSnoc(total, out[1..], m);
      assert (out + [m])[1..] == out[1..] + [m];
    }
  }

  /** The two sums over what the client has not taken, after the server appends one message. */
  lemma OutAppend(total: nat, out: seq<ServerMsg>, taken: nat, m: ServerMsg)
    requires taken <= |out|
    ensures RequestsWeight(total, (out + [m])[taken..]) == RequestsWeight(total, out[taken..]) + RequestWeight(total, m)
    ensures Work((out + [m])[taken..]) == Work(out[taken..]) + MsgWork(m)
  {
    assert (out + [m])[taken..] == out[taken..] + [m];
    OutSnoc(total, out[taken..], m);
  }

  lemma {:induction false} TimesGrows(n: nat, a: nat, b: nat)
    requires a <= b
    ensures Times(n, a) <= Times(n, b)
  {
    if n > 0 {
      TimesGrows(n - 1, a, b);
    }
  }

  lemma StreamSendSmaller(file: seq<Byte>, total: nat, y: System, verify: Verifier)
    requires Measured(total, y) && CanMove(y, StreamSend)
    ensures Smaller(total, Moved(file, y, StreamSend, verify), y)
  {
    var z := Moved(file, y, StreamSend, verify);
    assert y.stream == [y.stream[0]] + y.stream[1..];
    assert Finishes(z.stream) + Finishes(z.wire) == Finishes(y.stream) + Finishes(y.wire);
  }

  lemma ReplaySendSmaller(file: seq<Byte>, total: nat, y: System, verify: Verifier)
    requires Measured(total, y) && CanMove(y, ReplaySend) && FileFinish !in y.replay
    ensures Smaller(total, Moved(file, y, ReplaySend, verify), y)
  {
    var z := Moved(file, y, ReplaySend, verify);
    assert y.replay[0] in y.replay;
    assert Finishes(z.wire) == Finishes(y.wire);
  }

  lemma ClientTakeSmaller(file: seq<Byte>, total: nat, y: System, verify: Verifier)
    requires Measured(total, y) && CanMove(y, ClientTake) && GoodRequest(file, y.v.out[y.taken], y.v.ring)
    ensures Smaller(total, Moved(file, y, ClientTake, verify), y)
  {
    var z, msg := Moved(file, y, ClientTake, verify), y.v.out[y.taken];
    assert y.v.out[y.taken..][1..] == z.v.out[z.taken..];
    if msg.TellLostBag? {
      assert msg.missing[..1] == [msg.missing[0]];
      OpenWeightSnoc(total, y.answering, msg.missing[0]);
    }
  }

  lemma WakeSmaller(file: seq<Byte>, total: nat, y: System, verify: Verifier)
    requires Measured(total, y) && CanMove(y, Thread(Wake))
    ensures Smaller(total, Moved(file, y, Thread(Wake), verify), y)
  {
    var z := Moved(file, y, Thread(Wake), verify);
    OutAppend(total, y.v.out, y.taken, z.v.out[|y.v.out|]);
  }

  /** A started check counts as much as the request it may make, and one more. */
  lemma CheckSmaller(file: seq<Byte>, total: nat, y: System, verify: Verifier)
    requires Measured(total, y) && CanMove(y, Thread(Check)) && total == TotalPackets(|file|)
    ensures Smaller(total, Moved(file, y, Thread(Check), verify), y)
  {
    if Missing(y.v.ring) != [] {
      MissingIsGood(file, y.v.ring);
      OutAppend(total, y.v.out, y.taken, TellLostBag(Missing(y.v.ring)));
    }
  }

  lemma ThreadSmaller(file: seq<Byte>, total: nat, y: System, e: Event, verify: Verifier)
    requires Measured(total, y) && CanMove(y, Thread(e)) && !Spurious(e) && total == TotalPackets(|file|)
    ensures Measured(total, Moved(file, y, Thread(e), verify))
    ensures Smaller(total, Moved(file, y, Thread(e), verify), y)
  {
    if e.Wake? {
      WakeSmaller(file, total, y, verify);
    } else if e.Check? {
      CheckSmaller(file, total, y, verify);
    }
  }

  /** The permission for a request, in the potential, costs more than the request made with it. */
  lemma DataCost(file: seq<Byte>, v: Server, taken: nat, s: nat, data: seq<Byte>)
    requires v.ring.Frontier() && |v.ring.flags| == TotalPackets(|file|) && taken <= |v.out| && s < |v.ring.flags|
    ensures var total, w := TotalPackets(|file|), HandleData(v, s, data);
            && v.out <= w.out && w.ring.next == v.ring.next
            && w.starting == v.starting && w.waiting == v.waiting && w.blocked == v.blocked
            && Weight(total, w.ring.window) <= Weight(total, v.ring.window)
            && (w.out == v.out ==> w.able == v.able)
            && (w.out != v.out ==>
                  && v.able && !w.able
                  && RequestsWeight(total, w.out[taken..]) ==
                     RequestsWeight(total, v.out[taken..]) + Weight(total, w.ring.window))
  {
    var total, w := TotalPackets(|file|), HandleData(v, s, data);
    AcceptKeepsFrontier(v.ring, s, data);
    WeightShrinks(total, v.ring.window, w.ring.window);
    if |w.out| > |v.out| {
      MissingIsGood(file, w.ring);
      OutAppend(total, v.out, taken, TellLostBag(Missing(w.ring)));
    }
  }

  /** A packet handled costs less than it weighed on the wire, or takes away a permission. */
  lemma DataPays(total: nat, y: System, z: System)
    requires Measured(total, y) && Measured(total, z)
    requires z.stream == y.stream && z.replay == y.replay && z.taken == y.taken && z.answering == y.answering
    requires z.crashed == y.crashed && y.wire != [] && y.wire == [y.wire[0]] + z.wire && !y.wire[0].FileFinish?
    requires z.v.ring.next == y.v.ring.next
    requires z.v.starting == y.v.starting && z.v.waiting == y.v.waiting && z.v.blocked == y.v.blocked
    requires Weight(total, z.v.ring.window) <= Weight(total, y.v.ring.window)
    requires if z.v.out == y.v.out then z.v.able == y.v.able
             else y.v.able && !z.v.able
                  && RequestsWeight(total, z.v.out[z.taken..]) ==
                     RequestsWeight(total, y.v.out[y.taken..]) + Weight(total, z.v.ring.window)
    ensures Smaller(total, z, y)
  {
    assert Finishes(z.wire) == Finishes(y.wire);
    TimesGrows(y.v.starting, Weight(total, z.v.ring.window) + 1, Weight(total, y.v.ring.window) + 1);
  }

  lemma DataSmaller(file: seq<Byte>, y: System, verify: Verifier)
    requires Sane(file, y) && CanMove(y, ServerTake) && Live(y.v) && y.wire[0].FileDataBag?
    requires Sane(file, Moved(file, y, ServerTake, verify))
    ensures Smaller(TotalPackets(|file|), Moved(file, y, ServerTake, verify), y)
  {
    var z := Moved(file, y, ServerTake, verify);
    assert HonestMsg(file, y.wire[0]) && y.wire == [y.wire[0]] + z.wire;
    DataCost(file, y.v, y.taken, y.wire[0].seqNo, y.wire[0].data);
    DataPays(TotalPackets(|file|), y, z);
  }

  lemma FinishSmaller(file: seq<Byte>, y: System, verify: Verifier)
    requires Sane(file, y) && CanMove(y, ServerTake) && Live(y.v) && y.wire[0].FileFinish?
    requires Sane(file, Moved(file, y, ServerTake, verify))
    ensures Smaller(TotalPackets(|file|), Moved(file, y, ServerTake, verify), y)
  {
    var total, z := TotalPackets(|file|), Moved(file, y, ServerTake, verify);
    assert y.wire == [FileFinish] + z.wire;
    OutAppend(total, y.v.out, y.taken, ServerRecevFinal);
    FinishPaysForCheck(total, y, z);
  }

  /** FileFinish is counted as much as the check it starts, and one more. */
  lemma FinishPaysForCheck(total: nat, y: System, z: System)
    requires y.taken <= |y.v.out| && z.taken <= |z.v.out|
    requires z.answering == y.answering && z.v.able == y.v.able && z.v.ring.window == y.v.ring.window
    requires z.v.starting == y.v.starting + 1 && z.stream == y.stream && y.wire == [FileFinish] + z.wire
    requires RequestsWeight(total, z.v.out[z.taken..]) == RequestsWeight(total, y.v.out[y.taken..])
    ensures Potential(total, z) < Potential(total, y)
  {
    WeightShrinks(total, 0, y.v.ring.window);
    assert Finishes(y.wire) == Finishes(z.wire) + 1;
    var rest, unit := Finishes(y.stream) + Finishes(z.wire), Weight(total, 0) + 2;
    assert Times(rest + 1, unit) == unit + Times(rest, unit);
  }

  lemma ReCheckSmaller(file: seq<Byte>, y: System, verify: Verifier)
    requires Sane(file, y) && CanMove(y, ServerTake) && Live(y.v) && y.wire[0].ReTransLostBagFinished?
    requires Sane(file, Moved(file, y, ServerTake, verify))
    ensures Smaller(TotalPackets(|file|), Moved(file, y, ServerTake, verify), y)
  {
    var total, z := TotalPackets(|file|), Moved(file, y, ServerTake, verify);
    ReplayDoneAnswers(file, y);
    assert y.wire == [ReTransLostBagFinished] + z.wire;
    assert Finishes(y.wire) == Finishes(z.wire);
    ReplayPaysForCheck(total, y, z);
  }

  /** Answering a request frees more than a new check and a new permission cost. */
  lemma ReplayPaysForCheck(total: nat, y: System, z: System)
    requires y.taken <= |y.v.out| && z.taken <= |z.v.out|
    requires y.answering != [] && z.answering == y.answering[1..]
    requires y.answering[0] < y.v.ring.window == z.v.ring.window && y.answering[0] < total
    requires z.stream == y.stream && Finishes(z.wire) == Finishes(y.wire)
    requires y.v.starting <= z.v.starting <= y.v.starting + 1
    requires RequestsWeight(total, z.v.out[z.taken..]) == RequestsWeight(total, y.v.out[y.taken..])
    ensures Potential(total, z) < Potential(total, y)
  {
    WeightShrinks(total, y.answering[0], y.v.ring.window);
  }

  /** Every move but a spurious wakeup and the expiry of the timer makes the measure smaller, so no run goes on forever
      by itself. */
  lemma EveryMoveShrinks(file: seq<Byte>, y: System, m: Move, verify: Verifier)
    requires Sane(file, y) && CanMove(y, m) && Promised(m)
    ensures Sane(file, Moved(file, y, m, verify))
    ensures Smaller(TotalPackets(|file|), Moved(file, y, m, verify), y)
  {
    MoveKeepsSane(file, y, m, verify);
    var total := TotalPackets(|file|);
    match m
    case StreamSend => StreamSendSmaller(file, total, y, verify);
    case ReplaySend => ReplaySendSmaller(file, total, y, verify);
    case ClientTake => ClientTakeSmaller(file, total, y, verify);
    case Thread(e) => ThreadSmaller(file, total, y, e, verify);
    case ServerTake =>
      if Live(y.v) {
        match y.wire[0]
        case FileDataBag(_, _) => DataSmaller(file, y, verify);
        case FileFinish => FinishSmaller(file, y, verify);
        case ReTransLostBagFinished => ReCheckSmaller(file, y, verify);
      }
  }

  ghost predicate Follows(file: seq<Byte>, states: nat -> System, moves: nat -> Move, verify: Verifier, n: nat) {
    CanMove(states(n), moves(n)) && Promised(moves(n)) && states(n + 1) == Moved(file, states(n), moves(n), verify)
  }

  /** No infinite sequence of states is a run without spurious wakeups. */
  lemma EveryRunEnds(file: seq<Byte>, states: nat -> System, moves: nat -> Move, verify: Verifier)
    requires Sane(file, states(0))
    ensures exists n: nat :: !Follows(file, states, moves, verify, n)
  {
    if forall n: nat :: Follows(file, states, moves, verify, n) {
      NoDescent(file, states, moves, verify, 0);
    }
  }

  lemma {:induction false} NoDescent(
      file: seq<Byte>, states: nat -> System, moves: nat -> Move, verify: Verifier, n: nat)
    requires Sane(file, states(n))
    requires forall k: nat :: Follows(file, states, moves, verify, k)
    ensures false
    decreases Potential(TotalPackets(|file|), states(n)), Remaining(TotalPackets(|file|), states(n))
  {
    assert Follows(file, states, moves, verify, n);
    EveryMoveShrinks(file, states(n), moves(n), verify);
    NoDescent(file, states, moves, verify, n + 1);
  }

  /** At rest: nothing but a spurious wakeup, or the expiry of a timer, can happen. */
  ghost predicate Quiescent(y: System) {
    forall m :: CanMove(y, m) ==> !Promised(m)
  }

  /** From every reachable state some run comes to rest. */
  lemma {:induction false} ComesToRest(file: seq<Byte>, y: System, verify: Verifier) returns (ms: seq<Move>)
    requires Sane(file, y)
    ensures ValidMoves(file, y, ms, verify) && Quiescent(Play(file, y, ms, verify))
    decreases Potential(TotalPackets(|file|), y), Remaining(TotalPackets(|file|), y)
  {
    if m :| CanMove(y, m) && Promised(m) {
      EveryMoveShrinks(file, y, m, verify);
      var rest := ComesToRest(file, Moved(file, y, m, verify), verify);
      ms := [m] + rest;
      assert ms[0] == m && ms[1..] == rest;
    } else {
      ms := [];
    }
  }
}
