/** The other direction, and the exact condition under which every schedule of an upload completes. */
module Verdict {
  import opened Streams
  import opened Packets
  import opened Sender
  import opened Transfer
  import opened Runs
  import opened Upload
  import opened Termination
  import opened Outcome

  ghost predicate DataBelow(q: seq<ClientMsg>, u: nat) {
    forall i :: 0 <= i < |q| && q[i].FileDataBag? ==> q[i].seqNo < u
  }

  ghost predicate RequestsBelow(out: seq<ServerMsg>, u: nat) {
    forall i, s :: 0 <= i < |out| && out[i].TellLostBag? && s in out[i].missing ==> s < u
  }

  /** Packet `u` is unreceived, at or above the last accepted packet, and above everything under way. */
  ghost predicate Doomed(file: seq<Byte>, y: System, u: nat) {
    && Sane(file, y) && Live(y.v)
    && u < |y.v.ring.flags| && !y.v.ring.flags[u] && y.v.ring.last <= u
    && DataBelow(y.stream, u) && DataBelow(y.wire, u) && DataBelow(y.replay, u)
    && RequestsBelow(y.v.out, u)
  }

  lemma MissingBelow(t: Ring, u: nat)
    requires t.Frontier() && t.last <= u
    ensures forall s :: s in Missing(t) ==> s < u
  {
    GapReportedExactly(t);
  }

  lemma EmitsBelow(v: Server, w: Server, u: nat)
    requires Emits(v, w) && w.ring.Frontier() && w.ring.last <= u && RequestsBelow(v.out, u)
    ensures RequestsBelow(w.out, u)
  {
    MissingBelow(w.ring, u);
    forall i, s | 0 <= i < |w.out| && w.out[i].TellLostBag? && s in w.out[i].missing
      ensures s < u
    {
      if i < |v.out| {
        assert w.out[i] == v.out[i];
      }
    }
  }

  lemma ServerStepDoomed(v: Server, e: Event, u: nat, verify: Verifier)
    requires v.ring.Frontier() && Live(v) && Enabled(v, e) && RequestsBelow(v.out, u)
    requires u < |v.ring.flags| && !v.ring.flags[u] && v.ring.last <= u && (e.Data? ==> e.seqNo < u)
    ensures var w := Step(v, e, verify);
            && Live(w) && RequestsBelow(w.out, u)
            && |w.ring.flags| == |v.ring.flags| && !w.ring.flags[u] && w.ring.last <= u
  {
    StepRing(v, e, verify);
    StepFrontier(v, e, verify);
    StepEmits(v, e, verify);
    EmitsBelow(v, Step(v, e, verify), u);
  }

  lemma MoveStaysDoomed(file: seq<Byte>, y: System, m: Move, u: nat, verify: Verifier)
    requires Doomed(file, y, u) && CanMove(y, m)
    ensures Doomed(file, Moved(file, y, m, verify), u)
  {
    MoveKeepsSane(file, y, m, verify);
    match m
    case StreamSend =>
    case ReplaySend =>
    case Resend =>
    case ServerTake => ServerStepDoomed(y.v, EventOf(y.wire[0]), u, verify);
    case ClientTake =>
      var msg := y.v.out[y.taken];
      if msg.TellLostBag? {
        assert forall i :: 0 <= i < |msg.missing| ==> msg.missing[i] in msg.missing;
      }
    case Thread(e) => ServerStepDoomed(y.v, e, u, verify);
  }

  /** A doomed upload never completes. */
  lemma {:induction false} DoomedForever(file: seq<Byte>, y: System, ms: seq<Move>, u: nat, verify: Verifier)
    requires Doomed(file, y, u) && ValidMoves(file, y, ms, verify)
    ensures Doomed(file, Play(file, y, ms, verify), u)
    decreases |ms|
  {
    if ms != [] {
      MoveStaysDoomed(file, y, ms[0], u, verify);
      DoomedForever(file, Moved(file, y, ms[0], verify), ms[1..], u, verify);
    }
  }

  // ----- at rest the timer is stopped -----

  /** FileFinish is on its way until it is recorded and acknowledged; m_FinishCheck is set with the acknowledgement. */
  ghost predicate Acknowledged(y: System) {
    && (FileFinish in y.stream || FileFinish in y.wire || y.v.finalAccepted)
    && (y.v.finalAccepted ==> ServerRecevFinal in y.v.out)
    && (y.v.starting + y.v.waiting + y.v.blocked > 0 || !Live(y.v) ==> y.v.finalAccepted)
    && y.taken <= |y.v.out| && (ServerRecevFinal in y.v.out[..y.taken] ==> y.acked)
  }

  lemma SendAcknowledged(file: seq<Byte>, y: System, m: Move, verify: Verifier)
    requires Acknowledged(y) && CanMove(y, m) && (m.StreamSend? || m.ReplaySend? || m.Resend?)
    ensures Acknowledged(Moved(file, y, m, verify))
  {
    var z := Moved(file, y, m, verify);
    assert z.wire[..|y.wire|] == y.wire && forall k :: k in y.wire ==> k in z.wire;
    if m.StreamSend? {
      assert y.stream == [y.stream[0]] + z.stream && z.wire[|y.wire|] == y.stream[0];
    }
  }

  lemma ServerAcknowledged(v: Server, e: Event, verify: Verifier)
    requires Enabled(v, e) && (v.finalAccepted ==> ServerRecevFinal in v.out)
    requires v.starting + v.waiting + v.blocked > 0 || !Live(v) ==> v.finalAccepted
    ensures var w := Step(v, e, verify);
            && v.out <= w.out && (w.finalAccepted ==> ServerRecevFinal in w.out)
            && (w.starting + w.waiting + w.blocked > 0 || !Live(w) ==> w.finalAccepted)
            && w.finalAccepted == (v.finalAccepted || e.Finish?)
  {
    if e.Finish? {
      assert Step(v, e, verify).out[|v.out|] == ServerRecevFinal;
    }
  }

  lemma TakeAcknowledged(file: seq<Byte>, y: System, verify: Verifier)
    requires Acknowledged(y) && CanMove(y, ClientTake)
    ensures Acknowledged(Moved(file, y, ClientTake, verify))
  {
    var z := Moved(file, y, ClientTake, verify);
    assert z.v.out[..z.taken] == y.v.out[..y.taken] + [y.v.out[y.taken]];
  }

  lemma MoveAcknowledged(file: seq<Byte>, y: System, m: Move, verify: Verifier)
    requires Acknowledged(y) && CanMove(y, m)
    ensures Acknowledged(Moved(file, y, m, verify))
  {
    var z := Moved(file, y, m, verify);
    if m.Thread? || (m.ServerTake? && Live(y.v)) {
      ServerAcknowledged(y.v, if m.Thread? then m.e else EventOf(y.wire[0]), verify);
      assert z.v.out[..z.taken] == y.v.out[..y.taken];
      assert m.ServerTake? ==> y.wire == [y.wire[0]] + z.wire;
    } else if m.ClientTake? {
      TakeAcknowledged(file, y, verify);
    } else if !m.ServerTake? {
      SendAcknowledged(file, y, m, verify);
    }
  }

  lemma {:induction false} PlayAcknowledged(file: seq<Byte>, y: System, ms: seq<Move>, verify: Verifier)
    requires Acknowledged(y) && ValidMoves(file, y, ms, verify)
    ensures Acknowledged(Play(file, y, ms, verify))
    decreases |ms|
  {
    if ms != [] {
      MoveAcknowledged(file, y, ms[0], verify);
      PlayAcknowledged(file, Moved(file, y, ms[0], verify), ms[1..], verify);
    }
  }

  /** At rest FileFinish has been handled. */
  lemma RestIsFinal(file: seq<Byte>, y: System)
    requires Sane(file, y) && Acknowledged(y) && Quiescent(y)
    ensures y.v.finalAccepted && y.taken == |y.v.out|
  {
    assert !CanMove(y, StreamSend) && !CanMove(y, ReplaySend) && !CanMove(y, ClientTake);
    assert !CanMove(y, ServerTake) && !CanMove(y, Thread(Sleep));
    assert y.wire != [] ==> HonestMsg(file, y.wire[0]);
  }

  /** So at rest, in whatever state, the timer is stopped and nothing but a spurious wakeup can happen. */
  lemma RestIsSilent(file: seq<Byte>, last: nat, env: Setting, y: System, m: Move, verify: Verifier)
    requires |file| > 0 && Reachable(file, last, env, y, verify) && Quiescent(y) && CanMove(y, m)
    ensures y.acked && m.Thread? && Spurious(m.e)
  {
    var x := Begin(file, last, env);
    var ms :| ValidMoves(file, x, ms, verify) && Play(file, x, ms, verify) == y;
    BeginSane(file, last, env);
    PlaySane(file, x, ms, verify);
    assert x.stream[|x.stream| - 1] == FileFinish;
    PlayAcknowledged(file, x, ms, verify);
    RestIsFinal(file, y);
    assert y.v.out[..y.taken] == y.v.out;
  }

  // ----- how uploads get doomed -----

  /** Nothing is streamed and the unset m_LastReceivedSeq lies inside the file. */
  lemma BeginsDoomed(file: seq<Byte>, last: nat, env: Setting)
    requires |file| > 0 && Skipped(file, TotalPackets(|file|) - 1) && last < TotalPackets(|file|)
    ensures Doomed(file, Begin(file, last, env), TotalPackets(|file|) - 1)
  {
    BeginSane(file, last, env);
    NothingSent(file);
  }

  function Sends(n: nat): seq<Move> { seq(n, _ => StreamSend) }

  /** The client streams everything before the server handles anything. */
  lemma {:induction false} StreamFirst(file: seq<Byte>, y: System, n: nat, verify: Verifier)
    requires n <= |y.stream|
    ensures ValidMoves(file, y, Sends(n), verify)
    ensures Play(file, y, Sends(n), verify) == y.(stream := y.stream[n..], wire := y.wire + y.stream[..n])
    decreases n
  {
    if n == 0 {
      assert y.stream[0..] == y.stream && y.wire + y.stream[..0] == y.wire;
    } else {
      var z := Moved(file, y, StreamSend, verify);
      assert Sends(n)[1..] == Sends(n - 1);
      StreamFirst(file, z, n - 1, verify);
      assert z.stream[n - 1..] == y.stream[n..];
      assert z.wire + z.stream[..n - 1] == y.wire + y.stream[..n];
    }
  }

  /** While packet 0 is missing the window is stuck at the first 1024 packets. */
  ghost predicate Stuck(file: seq<Byte>, y: System, j: nat) {
    && Sane(file, y) && Live(y.v) && y.v.flusher.Looking? && y.stream == [] && y.replay == []
    && j < |Plan(file)| && y.wire == Plan(file)[j..]
    && y.v.ring.window == 0
    && (forall s :: 0 <= s < |y.v.ring.flags| && y.v.ring.flags[s] ==> s < WINDOW_SIZE)
    && (j > 0 ==> y.v.ring.last < WINDOW_SIZE)
    && RequestsBelow(y.v.out, WINDOW_SIZE)
  }

  /** In a file of more than 20 packets the first packet streamed is number 20. */
  lemma FirstStreamed(file: seq<Byte>, k: nat)
    requires TotalPackets(|file|) > 20 && k < |Plan(file)| - 1
    ensures var data := Streamed(file, TotalPackets(|file|));
            && k < |data| && Plan(file)[k] == data[k] && data[k].FileDataBag? && data[k].seqNo >= 20
            && data[0].FileDataBag? && data[0].seqNo == 20
  {
    var total, data := TotalPackets(|file|), Streamed(file, TotalPackets(|file|));
    PlanData(file, k);
    PlanData(file, 0);
    BlockBounds(file, data[k].seqNo);
    BlockBounds(file, data[0].seqNo);
    StreamedExactly(file, total, Bag(file, 20));
    var i :| 0 <= i < |data| && data[i] == Bag(file, 20);
  }

  lemma StuckTake(file: seq<Byte>, y: System, j: nat, verify: Verifier)
    requires TotalPackets(|file|) > WINDOW_SIZE && Stuck(file, y, j) && j < |Plan(file)| - 1
    ensures CanMove(y, ServerTake) && Stuck(file, Moved(file, y, ServerTake, verify), j + 1)
  {
    var head := y.wire[0];
    FirstStreamed(file, j);
    assert head == Plan(file)[j];
    assert HonestMsg(file, head);
    var z, e := Moved(file, y, ServerTake, verify), EventOf(head);
    MoveKeepsSane(file, y, ServerTake, verify);
    StepRing(y.v, e, verify);
    StepEmits(y.v, e, verify);
    assert z.wire == Plan(file)[j + 1..];
    assert !z.v.ring.flags[0];
    if j > 0 || head.seqNo == 20 {
      EmitsBelow(y.v, z.v, WINDOW_SIZE);
    }
  }

  lemma {:induction false} StuckRun(file: seq<Byte>, y: System, j: nat, verify: Verifier) returns (ms: seq<Move>)
    requires TotalPackets(|file|) > WINDOW_SIZE && Stuck(file, y, j)
    ensures ValidMoves(file, y, ms, verify) && Stuck(file, Play(file, y, ms, verify), |Plan(file)| - 1)
    decreases |Plan(file)| - j
  {
    if j == |Plan(file)| - 1 {
      ms := [];
    } else {
      StuckTake(file, y, j, verify);
      var rest := StuckRun(file, Moved(file, y, ServerTake, verify), j + 1, verify);
      ms := [ServerTake] + rest;
      assert ms[0] == ServerTake && ms[1..] == rest;
    }
  }

  /** A file of more than 1024 packets streamed ahead of the server loses its tail for good: packets 0 to 19 hold
      the window down, the tail is refused, and no check looks beyond the last accepted packet. */
  lemma LargeFileCanBeDoomed(file: seq<Byte>, last: nat, env: Setting, verify: Verifier) returns (y: System)
    requires TotalPackets(|file|) > WINDOW_SIZE
    ensures Reachable(file, last, env, y, verify) && Doomed(file, y, TotalPackets(|file|) - 1)
  {
    var x, sends := Begin(file, last, env), Sends(|Plan(file)|);
    StreamedAheadIsStuck(file, last, env, verify);
    y := Play(file, x, sends, verify);
    BeginReachable(file, last, env, verify);
    ReachPlay(file, last, env, x, sends, verify);
    var takes := StuckRun(file, y, 0, verify);
    ReachPlay(file, last, env, y, takes, verify);
    y := Play(file, y, takes, verify);
    StuckIsDoomed(file, y);
  }

  lemma StreamedAheadIsStuck(file: seq<Byte>, last: nat, env: Setting, verify: Verifier)
    requires TotalPackets(|file|) > WINDOW_SIZE
    ensures var y, n := Begin(file, last, env), |Plan(file)|;
            ValidMoves(file, y, Sends(n), verify) && Stuck(file, Play(file, y, Sends(n), verify), 0)
  {
    var y, n := Begin(file, last, env), |Plan(file)|;
    StreamFirst(file, y, n, verify);
    BeginSane(file, last, env);
    PlaySane(file, y, Sends(n), verify);
    assert y.stream[n..] == [] && y.wire + y.stream[..n] == Plan(file)[0..];
  }

  lemma StuckIsDoomed(file: seq<Byte>, w: System)
    requires TotalPackets(|file|) > WINDOW_SIZE && Stuck(file, w, |Plan(file)| - 1)
    ensures Doomed(file, w, TotalPackets(|file|) - 1)
  {
  }

  // ----- how uploads get stranded -----

  /** The flusher is about to wait and has written nothing. */
  ghost predicate Frozen(file: seq<Byte>, y: System) {
    Sane(file, y) && !y.env.locked && Live(y.v) && y.v.flusher.AboutToWait? && y.v.ring.next == 0
  }

  lemma MoveStaysFrozen(file: seq<Byte>, y: System, m: Move, verify: Verifier)
    requires Frozen(file, y) && CanMove(y, m) && m != Thread(Sleep)
    ensures Frozen(file, Moved(file, y, m, verify))
  {
    MoveKeepsSane(file, y, m, verify);
  }

  /** Nothing else is possible, and the flusher blocks for good. */
  lemma SleepIsRest(file: seq<Byte>, y: System, verify: Verifier)
    requires Frozen(file, y) && CanMove(y, Thread(Sleep))
    requires forall m :: CanMove(y, m) && Promised(m) ==> m == Thread(Sleep)
    ensures var z := Moved(file, y, Thread(Sleep), verify); Quiescent(z) && Live(z.v)
  {
    var z := Moved(file, y, Thread(Sleep), verify);
    forall m | Promised(m)
      ensures !CanMove(z, m)
    {
      assert CanMove(z, m) ==> CanMove(y, m) && m != Thread(Sleep);
    }
  }

  lemma StrandMove(file: seq<Byte>, last: nat, y: System, m: Move, verify: Verifier)
    requires Frozen(file, y) && Reachable(file, last, y.env, y, verify)
    requires CanMove(y, m) && Promised(m) && m != Thread(Sleep)
    ensures var z := Moved(file, y, m, verify);
            && Frozen(file, z) && z.env == y.env && Reachable(file, last, y.env, z, verify)
            && Smaller(TotalPackets(|file|), z, y)
  {
    MoveStaysFrozen(file, y, m, verify);
    EveryMoveShrinks(file, y, m, verify);
    ReachMove(file, last, y.env, y, m, verify);
  }

  /** Let everything else happen before the flusher blocks. */
  lemma {:induction false} Strand(file: seq<Byte>, last: nat, y: System, verify: Verifier) returns (z: System)
    requires Frozen(file, y) && Reachable(file, last, y.env, y, verify)
    ensures Reachable(file, last, y.env, z, verify) && Quiescent(z) && Live(z.v)
    decreases Potential(TotalPackets(|file|), y), Remaining(TotalPackets(|file|), y)
  {
    if m :| CanMove(y, m) && Promised(m) && m != Thread(Sleep) {
      StrandMove(file, last, y, m, verify);
      z := Strand(file, last, Moved(file, y, m, verify), verify);
    } else {
      z := Moved(file, y, Thread(Sleep), verify);
      ReachMove(file, last, y.env, y, Thread(Sleep), verify);
      SleepIsRest(file, y, verify);
    }
  }

  /** The flusher looks before the first packet and blocks after the last: all notifications are lost on it. */
  lemma EveryFileCanBeStranded(file: seq<Byte>, last: nat, env: Setting, verify: Verifier) returns (z: System)
    requires |file| > 0 && !env.locked
    ensures Reachable(file, last, env, z, verify) && Quiescent(z) && Live(z.v)
  {
    var y := Begin(file, last, env);
    BeginReachable(file, last, env, verify);
    BeginSane(file, last, env);
    ReachMove(file, last, env, y, Thread(Look), verify);
    MoveKeepsSane(file, y, Thread(Look), verify);
    z := Strand(file, last, Moved(file, y, Thread(Look), verify), verify);
  }

  // ----- the exact conditions -----

  ghost predicate AlwaysCompletes(file: seq<Byte>, last: nat, env: Setting, verify: Verifier) {
    forall y :: Reachable(file, last, env, y, verify) && Quiescent(y) ==> FileComplete in y.v.out
  }

  ghost predicate CompletesUnlessMissed(file: seq<Byte>, last: nat, env: Setting, verify: Verifier) {
    forall y :: Reachable(file, last, env, y, verify) && Quiescent(y) ==> (FileComplete in y.v.out <==> !y.missed)
  }

  lemma ReachableNoted(file: seq<Byte>, last: nat, env: Setting, y: System, verify: Verifier)
    requires |file| > 0 && Reachable(file, last, env, y, verify)
    ensures Sane(file, y) && Noted(y) && y.env == env
  {
    var x := Begin(file, last, env);
    var ms :| ValidMoves(file, x, ms, verify) && Play(file, x, ms, verify) == y;
    BeginSane(file, last, env);
    PlaySane(file, x, ms, verify);
    PlayNoted(file, x, ms, verify);
  }

  lemma ReachableOnward(file: seq<Byte>, last: nat, env: Setting, y: System, verify: Verifier)
    requires |file| > 0 && Reliable(file, last) && verify(file) && Reachable(file, last, env, y, verify)
    ensures Onward(file, y, last)
  {
    var x := Begin(file, last, env);
    var ms :| ValidMoves(file, x, ms, verify) && Play(file, x, ms, verify) == y;
    BeginOnward(file, last, env);
    PlayOnward(file, x, ms, last, verify);
  }

  /** At rest a reliable upload has completed if and only if the packet accepted last did not find the flusher between
      its look and its wait. */
  lemma ReliableCompletes(file: seq<Byte>, last: nat, env: Setting, y: System, verify: Verifier)
    requires |file| > 0 && Reliable(file, last) && verify(file) && Reachable(file, last, env, y, verify)
    ensures Quiescent(y) ==> (FileComplete in y.v.out <==> !y.missed)
    ensures env.locked ==> !y.missed
    ensures FileComplete in y.v.out ==> y.v.ring.flushed && y.v.ring.disk == file
  {
    ReachableOnward(file, last, env, y, verify);
    ReachableNoted(file, last, env, y, verify);
    if Quiescent(y) {
      RestIsComplete(file, y, last);
    }
    PrefixAll(file, TotalPackets(|file|));
  }

  function WithoutLock(y: System): System {
    y.(env := y.env.(locked := false))
  }

  lemma UnlockedMove(file: seq<Byte>, y: System, m: Move, verify: Verifier)
    requires CanMove(y, m)
    ensures CanMove(WithoutLock(y), m)
    ensures Moved(file, WithoutLock(y), m, verify) == WithoutLock(Moved(file, y, m, verify))
  {
  }

  /** A run under the lock is a run without it. */
  lemma {:induction false} Unlocked(file: seq<Byte>, y: System, ms: seq<Move>, verify: Verifier)
    requires ValidMoves(file, y, ms, verify)
    ensures ValidMoves(file, WithoutLock(y), ms, verify)
    ensures Play(file, WithoutLock(y), ms, verify) == WithoutLock(Play(file, y, ms, verify))
    decreases |ms|
  {
    if ms != [] {
      UnlockedMove(file, y, ms[0], verify);
      Unlocked(file, Moved(file, y, ms[0], verify), ms[1..], verify);
    }
  }

  lemma RestUnlocked(file: seq<Byte>, last: nat, env: Setting, y: System, verify: Verifier)
    requires env.locked && Reachable(file, last, env, y, verify) && Quiescent(y)
    ensures Reachable(file, last, env.(locked := false), WithoutLock(y), verify) && Quiescent(WithoutLock(y))
  {
    var x, z := Begin(file, last, env), WithoutLock(y);
    var ms :| ValidMoves(file, x, ms, verify) && Play(file, x, ms, verify) == y;
    Unlocked(file, x, ms, verify);
    assert WithoutLock(x) == Begin(file, last, env.(locked := false));
    assert ValidMoves(file, Begin(file, last, env.(locked := false)), ms, verify);
    assert !CanMove(y, Thread(Sleep));
    assert forall m :: CanMove(z, m) && Promised(m) ==> CanMove(y, m);
  }

  /** In all other cases some schedule under the lock comes to rest without completing. */
  lemma UnreliableFailsLocked(file: seq<Byte>, last: nat, env: Setting, verify: Verifier) returns (y: System)
    requires |file| > 0 && !Reliable(file, last) && env.locked
    ensures Reachable(file, last, env, y, verify) && Quiescent(y) && Live(y.v) && !y.missed
  {
    y := Begin(file, last, env);
    BeginReachable(file, last, env, verify);
    if TotalPackets(|file|) > WINDOW_SIZE {
      y := LargeFileCanBeDoomed(file, last, env, verify);
    } else {
      BeginsDoomed(file, last, env);
    }
    var rest := ComesToRest(file, y, verify);
    DoomedForever(file, y, rest, TotalPackets(|file|) - 1, verify);
    ReachPlay(file, last, env, y, rest, verify);
    y := Play(file, y, rest, verify);
    ReachableNoted(file, last, env, y, verify);
  }

  /** And so some schedule comes to rest without completing and without missing a packet. */
  lemma UnreliableCanFail(file: seq<Byte>, last: nat, env: Setting, verify: Verifier) returns (y: System)
    requires |file| > 0 && !Reliable(file, last)
    ensures Reachable(file, last, env, y, verify) && Quiescent(y) && Live(y.v) && !y.missed
  {
    var under := env.(locked := true);
    y := UnreliableFailsLocked(file, last, under, verify);
    if !env.locked {
      RestUnlocked(file, last, under, y, verify);
      assert under.(locked := false) == env;
      y := WithoutLock(y);
    }
  }

  /** The verdict. Over a connection that loses nothing, with the declared digest that of the source, whether or not
      the timer sends FileFinish again. Without a lock no file is safe from a schedule that comes to rest without
      FileComplete, because a notification can find the flusher between its look and its wait. If and only if the file
      has at most 1024 packets and the first FileFinish check can see its last packet, this is the only reason: a
      schedule at rest has completed exactly when the packet accepted last was not missed. With the flag set under the
      flusher's mutex every schedule of exactly these uploads completes. */
  lemma UploadCompletesExactly(file: seq<Byte>, last: nat, env: Setting, verify: Verifier)
    requires |file| > 0 && verify(file)
    ensures !env.locked ==> !AlwaysCompletes(file, last, env, verify)
    ensures CompletesUnlessMissed(file, last, env, verify) <==> Reliable(file, last)
    ensures env.locked ==> (AlwaysCompletes(file, last, env, verify) <==> Reliable(file, last))
    ensures Reliable(file, last) <==>
              |file| <= 1024 * 1024 && (|file| > 20 * 1024 || |file| % 1024 != 0 || last * 1024 >= |file|)
  {
    ReliableBySize(file, last);
    if !env.locked {
      var stranded := EveryFileCanBeStranded(file, last, env, verify);
    }
    if Reliable(file, last) {
      forall y | Reachable(file, last, env, y, verify) && Quiescent(y)
        ensures FileComplete in y.v.out <==> !y.missed
        ensures env.locked ==> !y.missed
      {
        ReliableCompletes(file, last, env, y, verify);
      }
    } else {
      var y := UnreliableCanFail(file, last, env, verify);
    }
  }
}
