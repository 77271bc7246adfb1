/** A whole upload over a connection that loses nothing and keeps order: the client's streaming thread and its
    replay handler on one side, the server's handlers, flusher and FinalCheck threads on the other. */
module Upload {
  import opened Streams
  import opened Packets
  import opened Sender
  import opened Transfer
  import opened Runs

  /** `locked`: AddPacket sets the flag under the flusher's m_Mutex; in the source it does not. `timer`: the client's
      20 s timer can expire before the server's acknowledgement of FileFinish is handled. */
  datatype Setting = Setting(locked: bool, timer: bool)

  /** `stream` is what SendFile has still to send, `replay` what the running HandleReTransmit has still to send,
      `wire` the client's messages the server has not handled, `taken` how many server messages the client has
      handled; `acked` is m_FinishCheck, set when the acknowledgement is handled. `answering` is a history: the first
      packet of each request whose replay-done message the server has not handled yet, oldest first. `crashed`: the
      server has used the null pointer that findFile returns for an upload that is no longer registered. `missed` is a
      history: the packet accepted last found the flusher about to wait, and its notification was lost; a spurious
      wakeup makes up for it. `resent` counts how often the timer has sent FileFinish again. */
  datatype System = System(
    v: Server, stream: seq<ClientMsg>, replay: seq<ClientMsg>, wire: seq<ClientMsg>, taken: nat, acked: bool,
    answering: seq<nat>, crashed: bool, missed: bool, resent: nat, env: Setting)

  datatype Move = StreamSend | ReplaySend | Resend | ServerTake | ClientTake | Thread(e: Event)

  /** The steps of the flusher and of FinalCheck threads. */
  predicate ThreadEvent(e: Event) {
    !e.Data? && !e.Finish? && !e.ReCheck?
  }

  /** The server's next message is a packet that the window admits. */
  predicate Feeds(y: System) {
    Live(y.v) && y.wire != [] && y.wire[0].FileDataBag? && Admits(y.v.ring, y.wire[0].seqNo)
  }

  function EventOf(m: ClientMsg): Event {
    match m
    case FileDataBag(s, data) => Data(s, data)
    case FileFinish => Finish
    case ReTransLostBagFinished => ReCheck
  }

  /** A move that comes if nothing else does: anything but a spurious wakeup and the expiry of the timer. */
  predicate Promised(m: Move) {
    !m.Resend? && (m.Thread? ==> !Spurious(m.e))
  }

  ghost predicate CanMove(y: System, m: Move) {
    match m
    case StreamSend => y.stream != []
    case ReplaySend => y.replay != []
    case Resend => y.env.timer && y.stream == [] && !y.acked
    case ServerTake =>
      && !y.crashed && y.wire != [] && (Live(y.v) ==> Enabled(y.v, EventOf(y.wire[0])))
      && (y.env.locked && Feeds(y) ==> !y.v.flusher.AboutToWait?)
    case ClientTake => y.replay == [] && y.taken < |y.v.out|
    case Thread(e) => !y.crashed && ThreadEvent(e) && Enabled(y.v, e)
  }

  ghost function Moved(file: seq<Byte>, y: System, m: Move, verify: Verifier): System
    requires CanMove(y, m)
  {
    match m
    case StreamSend => y.(stream := y.stream[1..], wire := y.wire + [y.stream[0]])
    case ReplaySend => y.(replay := y.replay[1..], wire := y.wire + [y.replay[0]])
    case Resend => y.(wire := y.wire + [FileFinish], resent := y.resent + 1)
    case ServerTake =>
      var head := y.wire[0];
      if !Live(y.v) then y.(crashed := true)
      else y.(v := Step(y.v, EventOf(head), verify), wire := y.wire[1..],
              missed := if Feeds(y) then y.v.flusher.AboutToWait? else y.missed,
              answering := if head.ReTransLostBagFinished? && y.answering != [] then y.answering[1..] else y.answering)
    case ClientTake =>
      var msg := y.v.out[y.taken];
      if msg.TellLostBag? then
        y.(taken := y.taken + 1, replay := Replayed(file, msg.missing) + [ReTransLostBagFinished],
           answering := y.answering + msg.missing[..Min(1, |msg.missing|)])
      else y.(taken := y.taken + 1, acked := y.acked || msg.ServerRecevFinal?)
    case Thread(e) => y.(v := Step(y.v, e, verify), missed := y.missed && !e.Stir?)
  }

  /** Everything SendFile sends. */
  function Plan(file: seq<Byte>): seq<ClientMsg> {
    Streamed(file, TotalPackets(|file|)) + [FileFinish]
  }

  function Begin(file: seq<Byte>, last: nat, env: Setting): System {
    System(Start(TotalPackets(|file|), last), Plan(file), [], [], 0, false, [], false, false, 0, env)
  }

  ghost predicate ValidMoves(file: seq<Byte>, y: System, ms: seq<Move>, verify: Verifier)
    decreases |ms|
  {
    ms == [] || (CanMove(y, ms[0]) && ValidMoves(file, Moved(file, y, ms[0], verify), ms[1..], verify))
  }

  ghost function Play(file: seq<Byte>, y: System, ms: seq<Move>, verify: Verifier): System
    requires ValidMoves(file, y, ms, verify)
    decreases |ms|
  {
    if ms == [] then y else Play(file, Moved(file, y, ms[0], verify), ms[1..], verify)
  }

  lemma {:induction false} PlayConcat(file: seq<Byte>, y: System, ms: seq<Move>, more: seq<Move>, verify: Verifier)
    requires ValidMoves(file, y, ms, verify) && ValidMoves(file, Play(file, y, ms, verify), more, verify)
    ensures ValidMoves(file, y, ms + more, verify)
    ensures Play(file, y, ms + more, verify) == Play(file, Play(file, y, ms, verify), more, verify)
    decreases |ms|
  {
    if ms == [] {
      assert ms + more == more;
    } else {
      PlayConcat(file, Moved(file, y, ms[0], verify), ms[1..], more, verify);
      assert (ms + more)[0] == ms[0] && (ms + more)[1..] == ms[1..] + more;
    }
  }

  /** Some run of the upload leads to `y`. */
  ghost predicate Reachable(file: seq<Byte>, last: nat, env: Setting, y: System, verify: Verifier) {
    var x := Begin(file, last, env);
    exists ms :: ValidMoves(file, x, ms, verify) && Play(file, x, ms, verify) == y
  }

  lemma BeginReachable(file: seq<Byte>, last: nat, env: Setting, verify: Verifier)
    ensures Reachable(file, last, env, Begin(file, last, env), verify)
  {
    assert ValidMoves(file, Begin(file, last, env), [], verify);
  }

  lemma ReachPlay(file: seq<Byte>, last: nat, env: Setting, y: System, ms: seq<Move>, verify: Verifier)
    requires Reachable(file, last, env, y, verify) && ValidMoves(file, y, ms, verify)
    ensures Reachable(file, last, env, Play(file, y, ms, verify), verify)
  {
    var x := Begin(file, last, env);
    var before :| ValidMoves(file, x, before, verify) && Play(file, x, before, verify) == y;
    PlayConcat(file, x, before, ms, verify);
  }

  lemma ReachMove(file: seq<Byte>, last: nat, env: Setting, y: System, m: Move, verify: Verifier)
    requires Reachable(file, last, env, y, verify) && CanMove(y, m)
    ensures Reachable(file, last, env, Moved(file, y, m, verify), verify)
  {
    var z := Moved(file, y, m, verify);
    assert [m][1..] == [] && ValidMoves(file, z, [m][1..], verify) && Play(file, z, [m][1..], verify) == z;
    assert ValidMoves(file, y, [m], verify) && Play(file, y, [m], verify) == z;
    ReachPlay(file, last, env, y, [m], verify);
  }

  // ----- what holds in every reachable state -----

  predicate HonestMsg(file: seq<Byte>, m: ClientMsg) {
    m.FileDataBag? ==> m.seqNo < TotalPackets(|file|) && m.data == Block(file, m.seqNo)
  }

  predicate AllHonest(file: seq<Byte>, q: seq<ClientMsg>) {
    forall i :: 0 <= i < |q| ==> HonestMsg(file, q[i])
  }

  /** Each replay-done message in `q` is preceded by the first packet of the request it answers, or that packet
      is already in `have`. */
  ghost predicate Answers(q: seq<ClientMsg>, open: seq<nat>, have: iset<nat>)
    decreases |q|
  {
    if q == [] then open == []
    else match q[0]
      case FileDataBag(s, _) => Answers(q[1..], open, have + iset{s})
      case FileFinish => Answers(q[1..], open, have)
      case ReTransLostBagFinished => open != [] && open[0] in have && Answers(q[1..], open[1..], have)
  }

  ghost function Received(t: Ring): iset<nat> {
    iset s | 0 <= s < |t.flags| && t.flags[s]
  }

  /** A request lists packets of the file in ascending order, starting at or below the receive frontier. */
  ghost predicate GoodRequest(file: seq<Byte>, m: ServerMsg, t: Ring) {
    m.TellLostBag? ==>
      && m.missing != [] && Ascending(m.missing) && m.missing[0] <= t.window
      && forall i :: 0 <= i < |m.missing| ==> m.missing[i] < TotalPackets(|file|)
  }

  ghost predicate Sane(file: seq<Byte>, y: System) {
    && y.v.ring.Frontier() && |y.v.ring.flags| == TotalPackets(|file|)
    && y.taken <= |y.v.out|
    && AllHonest(file, y.stream) && AllHonest(file, y.replay) && AllHonest(file, y.wire)
    && FileFinish !in y.replay
    && (forall i :: 0 <= i < |y.v.out| ==> GoodRequest(file, y.v.out[i], y.v.ring))
    && (forall i :: 0 <= i < |y.answering| ==>
          y.answering[i] <= y.v.ring.window && y.answering[i] < TotalPackets(|file|))
    && (forall i :: 0 <= i < |y.stream| ==> !y.stream[i].ReTransLostBagFinished?)
    && Answers(y.wire + y.replay, y.answering, Received(y.v.ring))
    && (y.crashed ==> !Live(y.v))
  }

  lemma {:induction false} AnswersMore(q: seq<ClientMsg>, open: seq<nat>, have: iset<nat>, more: iset<nat>)
    requires Answers(q, open, have)
    requires forall i :: 0 <= i < |open| && open[i] in have ==> open[i] in more
    ensures Answers(q, open, more)
    decreases |q|
  {
    if q != [] {
      match q[0]
      case FileDataBag(s, _) => AnswersMore(q[1..], open, have + iset{s}, more + iset{s});
      case FileFinish => AnswersMore(q[1..], open, have, more);
      case ReTransLostBagFinished => AnswersMore(q[1..], open[1..], have, more);
    }
  }

  /** A streamed message may be inserted anywhere. */
  lemma {:induction false} AnswersInsert(
      q: seq<ClientMsg>, r: seq<ClientMsg>, m: ClientMsg, open: seq<nat>, have: iset<nat>)
    requires Answers(q + r, open, have) && !m.ReTransLostBagFinished?
    ensures Answers(q + [m] + r, open, have)
    decreases |q|
  {
    var whole := q + [m] + r;
    if q == [] {
      assert q + r == r && whole[0] == m && whole[1..] == r;
      AnswersMore(r, open, have, have + if m.FileDataBag? then iset{m.seqNo} else iset{});
      assert have + iset{} == have;
    } else {
      assert (q + r)[0] == q[0] == whole[0] && (q + r)[1..] == q[1..] + r && whole[1..] == q[1..] + [m] + r;
      match q[0]
      case FileDataBag(s, _) => AnswersInsert(q[1..], r, m, open, have + iset{s});
      case FileFinish => AnswersInsert(q[1..], r, m, open, have);
      case ReTransLostBagFinished => AnswersInsert(q[1..], r, m, open[1..], have);
    }
  }

  /** A replay, data first and the replay-done message last, may be appended. */
  lemma {:induction false} AnswersAppend(
      q: seq<ClientMsg>, data: seq<ClientMsg>, first: nat, open: seq<nat>, have: iset<nat>)
    requires Answers(q, open, have)
    requires data != [] ==> data[0].FileDataBag? && data[0].seqNo == first
    requires forall i :: 0 <= i < |data| ==> data[i].FileDataBag?
    requires data == [] ==> first in have
    ensures Answers(q + (data + [ReTransLostBagFinished]), open + [first], have)
    decreases |q|, |data|
  {
    var tail := data + [ReTransLostBagFinished];
    var whole := q + tail;
    if q == [] {
      assert whole == tail && open + [first] == [first];
      if data == [] {
        assert whole[1..] == [] && [first][1..] == [];
      } else {
        assert whole[1..] == [] + (data[1..] + [ReTransLostBagFinished]);
        AnswersDataThenDone(data[1..], first, have + iset{first});
      }
    } else {
      assert whole[0] == q[0] && whole[1..] == q[1..] + tail;
      match q[0]
      case FileDataBag(s, _) => AnswersAppend(q[1..], data, first, open, have + iset{s});
      case FileFinish => AnswersAppend(q[1..], data, first, open, have);
      case ReTransLostBagFinished =>
        assert (open + [first])[1..] == open[1..] + [first];
        AnswersAppend(q[1..], data, first, open[1..], have);
    }
  }

  lemma {:induction false} AnswersDataThenDone(data: seq<ClientMsg>, first: nat, have: iset<nat>)
    requires first in have && forall i :: 0 <= i < |data| ==> data[i].FileDataBag?
    ensures Answers([] + (data + [ReTransLostBagFinished]), [first], have)
    decreases |data|
  {
    var whole := [] + (data + [ReTransLostBagFinished]);
    if data == [] {
      assert whole[1..] == [] && [first][1..] == [];
    } else {
      assert whole[1..] == [] + (data[1..] + [ReTransLostBagFinished]);
      AnswersDataThenDone(data[1..], first, have + iset{data[0].seqNo});
    }
  }

  lemma BeginSane(file: seq<Byte>, last: nat, env: Setting)
    requires |file| > 0
    ensures Sane(file, Begin(file, last, env))
  {
    var total := TotalPackets(|file|);
    var plan := Plan(file);
    forall i | 0 <= i < |plan|
      ensures HonestMsg(file, plan[i]) && !plan[i].ReTransLostBagFinished?
    {
      StreamedExactly(file, total, plan[i]);
      if i < total && i < |Streamed(file, total)| {
        assert plan[i] in Streamed(file, total);
      }
    }
  }

  /** What a check asks for is a good request. */
  lemma MissingIsGood(file: seq<Byte>, t: Ring)
    requires t.Frontier() && |t.flags| == TotalPackets(|file|) && Missing(t) != []
    ensures GoodRequest(file, TellLostBag(Missing(t)), t)
    ensures Missing(t)[0] == t.window
  {
    GapReportedExactly(t);
    UnreceivedExactly(t.flags, t.window, Min(t.last, |t.flags|));
    assert forall i :: 0 <= i < |Missing(t)| ==> Missing(t)[i] in Missing(t);
  }

  /** A server step appends to `out` at most an acknowledgement and an answer, and every request it makes is for
      what is missing afterwards. */
  ghost predicate Emits(v: Server, w: Server) {
    && v.out <= w.out
    && forall i :: |v.out| <= i < |w.out| && w.out[i].TellLostBag? ==>
                     Missing(w.ring) != [] && w.out[i].missing == Missing(w.ring)
  }

  lemma StepEmits(v: Server, e: Event, verify: Verifier)
    requires Enabled(v, e)
    ensures Emits(v, Step(v, e, verify))
  {
  }

  lemma EmitsGood(file: seq<Byte>, v: Server, w: Server)
    requires w.ring.Frontier() && |w.ring.flags| == TotalPackets(|file|)
    requires v.ring.window <= w.ring.window && Emits(v, w)
    requires forall i :: 0 <= i < |v.out| ==> GoodRequest(file, v.out[i], v.ring)
    ensures forall i :: 0 <= i < |w.out| ==> GoodRequest(file, w.out[i], w.ring)
  {
    forall i | 0 <= i < |w.out|
      ensures GoodRequest(file, w.out[i], w.ring)
    {
      if i < |v.out| {
        assert w.out[i] == v.out[i];
      } else if w.out[i].TellLostBag? {
        MissingIsGood(file, w.ring);
      }
    }
  }

  lemma ServerStepKeepsRequestsGood(file: seq<Byte>, v: Server, e: Event, verify: Verifier)
    requires v.ring.Frontier() && |v.ring.flags| == TotalPackets(|file|) && Enabled(v, e)
    requires forall i :: 0 <= i < |v.out| ==> GoodRequest(file, v.out[i], v.ring)
    ensures var w := Step(v, e, verify);
            && w.ring.Frontier() && |w.ring.flags| == |v.ring.flags| && v.ring.window <= w.ring.window && v.out <= w.out
            && forall i :: 0 <= i < |w.out| ==> GoodRequest(file, w.out[i], w.ring)
  {
    StepFrontier(v, e, verify);
    StepEmits(v, e, verify);
    EmitsGood(file, v, Step(v, e, verify));
  }

  /** A replay-done message at hand answers the oldest open request, whose first packet is received. */
  lemma ReplayDoneAnswers(file: seq<Byte>, y: System)
    requires Sane(file, y) && y.wire != [] && y.wire[0].ReTransLostBagFinished?
    ensures y.answering != [] && y.answering[0] < y.v.ring.window
    ensures Answers(y.wire[1..] + y.replay, y.answering[1..], Received(y.v.ring))
  {
    var q := y.wire + y.replay;
    assert q[0] == y.wire[0] && q[1..] == y.wire[1..] + y.replay;
    assert y.v.ring.flags[y.answering[0]];
    assert y.answering[0] != y.v.ring.window;
  }

  lemma DataAnswers(file: seq<Byte>, y: System, verify: Verifier)
    requires Sane(file, y) && CanMove(y, ServerTake) && Live(y.v) && y.wire[0].FileDataBag?
    ensures var z := Moved(file, y, ServerTake, verify); Answers(z.wire + z.replay, z.answering, Received(z.v.ring))
  {
    var z, q, s := Moved(file, y, ServerTake, verify), y.wire + y.replay, y.wire[0].seqNo;
    assert q[0] == y.wire[0] && q[1..] == z.wire + z.replay;
    StepRing(y.v, EventOf(y.wire[0]), verify);
    StepFrontier(y.v, EventOf(y.wire[0]), verify);
    AnswersMore(q[1..], y.answering, Received(y.v.ring) + iset{s}, Received(z.v.ring));
  }

  lemma ServerTakeAnswers(file: seq<Byte>, y: System, verify: Verifier)
    requires Sane(file, y) && CanMove(y, ServerTake) && Live(y.v)
    ensures var z := Moved(file, y, ServerTake, verify); Answers(z.wire + z.replay, z.answering, Received(z.v.ring))
  {
    match y.wire[0]
    case FileDataBag(_, _) => DataAnswers(file, y, verify);
    case FileFinish =>
      var q := y.wire + y.replay;
      assert q[0] == y.wire[0] && q[1..] == y.wire[1..] + y.replay;
    case ReTransLostBagFinished => ReplayDoneAnswers(file, y);
  }

  /** A replay just started: its messages are honest, and its replay-done follows the request's first packet. */
  lemma ReplaySane(file: seq<Byte>, q: seq<ClientMsg>, missing: seq<nat>, open: seq<nat>, t: Ring)
    requires Answers(q, open, Received(t)) && GoodRequest(file, TellLostBag(missing), t)
    ensures var replay := Replayed(file, missing) + [ReTransLostBagFinished];
            && AllHonest(file, replay) && FileFinish !in replay
            && Answers(q + replay, open + missing[..1], Received(t))
  {
    assert missing[..1] == [missing[0]];
    AnswersAppend(q, Replayed(file, missing), missing[0], open, Received(t));
  }

  lemma ClientTakeSane(file: seq<Byte>, y: System, verify: Verifier)
    requires Sane(file, y) && CanMove(y, ClientTake)
    ensures Sane(file, Moved(file, y, ClientTake, verify))
  {
    var msg := y.v.out[y.taken];
    assert GoodRequest(file, msg, y.v.ring);
    if msg.TellLostBag? {
      assert y.wire + y.replay == y.wire;
      ReplaySane(file, y.wire, msg.missing, y.answering, y.v.ring);
    }
  }

  /** Whatever the server asks for in a reachable state, HandleReTransmit replays to the end. */
  lemma RequestsAreReplayed(file: seq<Byte>, y: System, i: nat)
    requires Sane(file, y) && i < |y.v.out| && y.v.out[i].TellLostBag?
    ensures var missing := y.v.out[i].missing;
            forall k :: 0 <= k < |missing| ==> !ReplayStops(file, missing, k)
  {
  }

  lemma MoveKeepsSane(file: seq<Byte>, y: System, m: Move, verify: Verifier)
    requires Sane(file, y) && CanMove(y, m)
    ensures Sane(file, Moved(file, y, m, verify))
  {
    var z := Moved(file, y, m, verify);
    match m
    case StreamSend =>
      AnswersInsert(y.wire, y.replay, y.stream[0], y.answering, Received(y.v.ring));
    case ReplaySend =>
      assert z.wire + z.replay == y.wire + y.replay;
    case Resend =>
      AnswersInsert(y.wire, y.replay, FileFinish, y.answering, Received(y.v.ring));
    case ServerTake =>
      if Live(y.v) {
        ServerStepKeepsRequestsGood(file, y.v, EventOf(y.wire[0]), verify);
        ServerTakeAnswers(file, y, verify);
      }
    case ClientTake => ClientTakeSane(file, y, verify);
    case Thread(e) =>
      StepRing(y.v, e, verify);
      ServerStepKeepsRequestsGood(file, y.v, e, verify);
  }

  lemma {:induction false} PlaySane(file: seq<Byte>, y: System, ms: seq<Move>, verify: Verifier)
    requires Sane(file, y) && ValidMoves(file, y, ms, verify)
    ensures Sane(file, Play(file, y, ms, verify))
    decreases |ms|
  {
    if ms != [] {
      MoveKeepsSane(file, y, ms[0], verify);
      PlaySane(file, Moved(file, y, ms[0], verify), ms[1..], verify);
    }
  }

  // ----- what a lost notification leaves behind -----

  /** A missed packet leaves the flusher not awake and the flush unfinished; otherwise a flusher that is not awake has
      nothing to write. */
  predicate FlusherNoted(v: Server, missed: bool) {
    && (missed ==> !v.flusher.Looking? && !v.ring.flushed)
    && (!missed && !v.flusher.Looking? ==> v.ring.next == v.ring.window)
  }

  /** Besides: under the lock nothing is missed, and FileComplete comes after the flush. */
  ghost predicate Noted(y: System) {
    FlusherNoted(y.v, y.missed) && (y.env.locked ==> !y.missed) && (Live(y.v) || y.v.ring.flushed)
  }

  lemma StepNoted(v: Server, e: Event, missed: bool, verify: Verifier)
    requires v.ring.Frontier() && FlusherNoted(v, missed) && Enabled(v, e)
    ensures var now := if e.Data? && Admits(v.ring, e.seqNo) then v.flusher.AboutToWait? else missed && !e.Stir?;
            FlusherNoted(Step(v, e, verify), now)
    ensures v.ring.flushed ==> Step(v, e, verify).ring.flushed
    ensures Live(v) ==> Live(Step(v, e, verify)) || v.ring.flushed
  {
    StepFrontier(v, e, verify);
  }

  lemma MoveNoted(file: seq<Byte>, y: System, m: Move, verify: Verifier)
    requires Sane(file, y) && Noted(y) && CanMove(y, m)
    ensures Noted(Moved(file, y, m, verify)) && Moved(file, y, m, verify).env == y.env
  {
    if m.Thread? {
      StepNoted(y.v, m.e, y.missed, verify);
    } else if m.ServerTake? && Live(y.v) {
      StepNoted(y.v, EventOf(y.wire[0]), y.missed, verify);
    }
  }

  lemma {:induction false} PlayNoted(file: seq<Byte>, y: System, ms: seq<Move>, verify: Verifier)
    requires Sane(file, y) && Noted(y) && ValidMoves(file, y, ms, verify)
    ensures Noted(Play(file, y, ms, verify)) && Play(file, y, ms, verify).env == y.env
    decreases |ms|
  {
    if ms != [] {
      MoveKeepsSane(file, y, ms[0], verify);
      MoveNoted(file, y, ms[0], verify);
      PlayNoted(file, Moved(file, y, ms[0], verify), ms[1..], verify);
    }
  }
}
