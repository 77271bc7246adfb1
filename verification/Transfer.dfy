/** The receiving side of one upload, as a value: ring, bitmap, the two frontiers, and what each
    server-side step does to them. */
module Transfer {
  import opened Streams

  const WINDOW_SIZE: nat := 1024
  const CHECK_LOST_PER_BAGS: nat := 100

  datatype ServerMsg = TellLostBag(missing: seq<nat>) | ServerRecevFinal | FileComplete | RequestVerify

  /** `window` is the receive frontier m_WindowStart, `next` the flush frontier m_NextExpectedSeq,
      `last` is m_LastReceivedSeq and `disk` the bytes written so far. */
  datatype Ring = Ring(
    flags: seq<bool>, slots: seq<seq<Byte>>, window: nat, next: nat, last: nat, disk: seq<Byte>, flushed: bool)
  {
    ghost predicate Shape() {
      |flags| > 0 && |slots| == WINDOW_SIZE && window <= |flags| && next <= |flags|
    }

    /** `window` is the least packet number not received, or the packet count. */
    ghost predicate Frontier() {
      && Shape()
      && (forall i :: 0 <= i < window ==> flags[i])
      && (window < |flags| ==> !flags[window])
      && next <= window
      && flushed == (next == |flags|)
    }
  }

  /** Where the flushing thread is: before a look at the next packet's flag, or working; between a look that found
      the flag unset and its wait, holding m_Mutex; blocked on m_CV. */
  datatype Flusher = Looking | AboutToWait | Asleep

  /** `starting` counts the FinalCheck threads that have been started and have not looked for gaps yet, `waiting` those
      that have found none and are not blocked, `blocked` those that are blocked on m_CVFlushed. */
  datatype Server = Server(
    ring: Ring, missingSeqs: seq<nat>, able: bool, finalAccepted: bool, starting: nat, waiting: nat, blocked: nat,
    out: seq<ServerMsg>, flusher: Flusher)

  function Slot(s: nat): nat { s % WINDOW_SIZE }

  predicate Admits(t: Ring, s: nat) {
    t.window <= s < t.window + WINDOW_SIZE
  }

  function FirstUnset(flags: seq<bool>, from: nat): (i: nat)
    requires from <= |flags|
    ensures from <= i <= |flags|
    ensures forall j :: from <= j < i ==> flags[j]
    ensures i < |flags| ==> !flags[i]
    decreases |flags| - from
  {
    if from < |flags| && flags[from] then FirstUnset(flags, from + 1) else from
  }

  /** What AddPacket stores, after the file is found. */
  function Accept(t: Ring, s: nat, data: seq<Byte>): Ring
    requires t.Shape() && (Admits(t, s) ==> s < |t.flags|)
  {
    if !Admits(t, s) then t
    else
      var flags := t.flags[s := true];
      t.(flags := flags, slots := t.slots[Slot(s) := data], last := s, window := FirstUnset(flags, t.window))
  }

  predicate CanFlush(t: Ring) {
    t.next < |t.flags| && t.flags[t.next]
  }

  /** What one turn of FlushToDisk writes. */
  function FlushOne(t: Ring): Ring
    requires t.Shape() && CanFlush(t)
  {
    t.(disk := t.disk + t.slots[Slot(t.next)], next := t.next + 1, flushed := t.next + 1 >= |t.flags|)
  }

  /** The bytes the flusher writes for packets a..b-1 if no slot changes meanwhile. */
  function Drained(slots: seq<seq<Byte>>, a: nat, b: nat): seq<Byte>
    requires |slots| == WINDOW_SIZE
  {
    if b <= a then [] else Drained(slots, a, b - 1) + slots[Slot(b - 1)]
  }

  /** The ring after the flusher has gone on to packet `n`. */
  function FlushedTo(t: Ring, n: nat): Ring
    requires t.Shape()
  {
    t.(next := n, flushed := n == |t.flags|, disk := t.disk + Drained(t.slots, t.next, n))
  }

  /** The unreceived packet numbers in [lo, hi), ascending. */
  function Unreceived(flags: seq<bool>, lo: nat, hi: nat): seq<nat>
    requires hi <= |flags|
  {
    if hi <= lo then []
    else Unreceived(flags, lo, hi - 1) + if flags[hi - 1] then [] else [hi - 1]
  }

  function Missing(t: Ring): seq<nat> {
    Unreceived(t.flags, t.window, Min(t.last, |t.flags|))
  }

  /** AddPacket: an accepted packet notifies the flusher, which wakes it if it is blocked and is lost on it otherwise;
      m_Mutex is not taken. */
  function TakePacket(v: Server, s: nat, data: seq<Byte>): Server
    requires v.ring.Shape() && (Admits(v.ring, s) ==> s < |v.ring.flags|)
  {
    v.(ring := Accept(v.ring, s, data),
       flusher := if Admits(v.ring, s) && v.flusher.Asleep? then Looking else v.flusher)
  }

  /** One turn of FlushToDisk; the last one notifies one blocked check. */
  function FlushTurn(v: Server): Server
    requires v.ring.Shape() && CanFlush(v.ring)
  {
    var t := FlushOne(v.ring);
    if t.flushed && v.blocked > 0 then v.(ring := t, waiting := v.waiting + 1, blocked := v.blocked - 1)
    else v.(ring := t)
  }

  /** The server after the flusher has gone on to packet `n`. */
  function FlushedOn(v: Server, n: nat): Server
    requires v.ring.Shape()
  {
    var w := v.(ring := FlushedTo(v.ring, n));
    if v.ring.next < n == |v.ring.flags| && v.blocked > 0 then w.(waiting := v.waiting + 1, blocked := v.blocked - 1)
    else w
  }

  /** HandleData: store the packet and, every hundredth number, ask for the gaps unless a request is open. */
  function HandleData(v: Server, s: nat, data: seq<Byte>): Server
    requires v.ring.Shape() && (Admits(v.ring, s) ==> s < |v.ring.flags|)
  {
    var w := TakePacket(v, s, data);
    var missing := Missing(w.ring);
    if v.able && s % CHECK_LOST_PER_BAGS == 0 && missing != [] then
      w.(missingSeqs := missing, able := false, out := v.out + [TellLostBag(missing)])
    else
      w
  }

  /** ServerHandleFinalBag: a thread is started for the check. */
  function HandleFinish(v: Server): Server {
    v.(finalAccepted := true, starting := v.starting + 1, out := v.out + [ServerRecevFinal])
  }

  /** ReCheckFile, once the client says the replay is over. */
  function ReCheckFile(v: Server): Server {
    v.(able := true, starting := v.starting + if v.finalAccepted then 1 else 0)
  }

  /** A started FinalCheck up to the point where it either has asked for the gaps or goes to wait for the flush. */
  function StartFinalCheck(v: Server): Server
    requires v.starting > 0
  {
    var w := v.(starting := v.starting - 1);
    if Missing(v.ring) != [] then
      w.(missingSeqs := Missing(v.ring), out := v.out + [TellLostBag(Missing(v.ring))])
    else
      w.(waiting := v.waiting + 1)
  }

  /** A check finds the flush unfinished and blocks; looking and blocking are one step under m_Mutex, under which the
      flush is finished too. */
  function BlockCheck(v: Server): Server
    requires v.waiting > 0
  {
    v.(waiting := v.waiting - 1, blocked := v.blocked + 1)
  }

  /** A check will go on once the flush is finished. */
  predicate Checking(v: Server) {
    v.waiting > 0 || (v.blocked > 0 && !v.ring.flushed)
  }

  /** The rest of FinalCheck, once the flush is finished: compare digests and answer. */
  function EndFinalCheck(v: Server, verified: bool): Server
    requires v.waiting > 0
  {
    v.(waiting := v.waiting - 1, out := v.out + [if verified then FileComplete else RequestVerify])
  }

  ghost predicate Ascending(list: seq<nat>) {
    forall i, j :: 0 <= i < j < |list| ==> list[i] < list[j]
  }

  /** The gap list holds exactly the unreceived numbers of the range, strictly ascending. */
  lemma {:induction false} UnreceivedExactly(flags: seq<bool>, lo: nat, hi: nat)
    requires hi <= |flags|
    ensures forall s :: s in Unreceived(flags, lo, hi) <==> lo <= s < hi && !flags[s]
    ensures Ascending(Unreceived(flags, lo, hi))
  {
    if lo < hi {
      UnreceivedExactly(flags, lo, hi - 1);
      var rest := Unreceived(flags, lo, hi - 1);
      var list := Unreceived(flags, lo, hi);
      forall i, j | 0 <= i < j < |list|
        ensures list[i] < list[j]
      {
        assert rest[i] in rest;
      }
    }
  }

  /** A check reports a gap exactly when the receive frontier is below the last accepted packet. */
  lemma GapReportedExactly(t: Ring)
    requires t.Frontier()
    ensures Missing(t) != [] <==> t.window < t.last && t.window < |t.flags|
    ensures Missing(t) != [] ==> Missing(t)[0] == t.window
    ensures forall s :: s in Missing(t) <==> t.window <= s < Min(t.last, |t.flags|) && !t.flags[s]
  {
    var hi := Min(t.last, |t.flags|);
    UnreceivedExactly(t.flags, t.window, hi);
    assert Missing(t) == Unreceived(t.flags, t.window, hi);
    if t.window < hi {
      assert t.window in Missing(t);
      var i :| 0 <= i < |Missing(t)| && Missing(t)[i] == t.window;
      assert Missing(t)[0] in Missing(t);
    } else {
      assert Missing(t) == [];
    }
  }

  /** Accepting a packet keeps both frontiers ordered and `window` least, and never moves it back. */
  lemma AcceptKeepsFrontier(t: Ring, s: nat, data: seq<Byte>)
    requires t.Frontier() && (Admits(t, s) ==> s < |t.flags|)
    ensures Accept(t, s, data).Frontier()
    ensures t.window <= Accept(t, s, data).window
    ensures Accept(t, s, data).window > t.window <==> s == t.window
  {
  }

  lemma FlushKeepsFrontier(t: Ring)
    requires t.Frontier() && CanFlush(t)
    ensures FlushOne(t).Frontier()
  {
  }

  lemma FlushedOnItself(v: Server)
    requires v.ring.Frontier()
    ensures FlushedOn(v, v.ring.next) == v
  {
    assert v.ring.disk + [] == v.ring.disk;
  }

  lemma FlushOneMore(t: Ring, n: nat)
    requires t.Frontier() && t.next < n <= t.window
    ensures FlushedTo(t, n - 1).Frontier() && CanFlush(FlushedTo(t, n - 1))
    ensures FlushOne(FlushedTo(t, n - 1)) == FlushedTo(t, n)
  {
    ConcatAssociates(t.disk, Drained(t.slots, t.next, n - 1), t.slots[Slot(n - 1)]);
  }

  lemma FlushedOneMore(v: Server, n: nat)
    requires v.ring.Frontier() && v.ring.next < n <= v.ring.window
    ensures FlushedOn(v, n - 1).ring.Frontier() && CanFlush(FlushedOn(v, n - 1).ring)
    ensures FlushTurn(FlushedOn(v, n - 1)) == FlushedOn(v, n)
  {
    FlushOneMore(v.ring, n);
  }
}
