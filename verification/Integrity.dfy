/** What ends up on disk. Packets carry the bytes of the source file; they may arrive in any order, any
    number of times or never, interleaved with the flusher in any way. */
module Integrity {
  import opened Streams
  import opened Packets
  import opened Transfer
  import opened Runs

  predicate Honest(file: seq<Byte>, e: Event) {
    e.Data? ==> e.data == Block(file, e.seqNo)
  }

  ghost predicate HonestRun(file: seq<Byte>, v: Server, es: seq<Event>, verify: Verifier) {
    ValidRun(v, es, verify) && forall i :: 0 <= i < |es| ==> Honest(file, es[i])
  }

  /** The lag condition: a packet the window admits is less than 1024 ahead of the flush frontier. */
  predicate InLag(t: Ring, e: Event) {
    e.Data? && Admits(t, e.seqNo) ==> e.seqNo < t.next + WINDOW_SIZE
  }

  ghost predicate LaggedRun(v: Server, es: seq<Event>, verify: Verifier)
    requires ValidRun(v, es, verify)
    decreases |es|
  {
    es == [] || (InLag(v.ring, es[0]) && LaggedRun(Step(v, es[0], verify), es[1..], verify))
  }

  /** The disk holds exactly the first `next` packets of the source. */
  predicate DiskExact(file: seq<Byte>, t: Ring) {
    t.disk == Prefix(file, t.next)
  }

  /** Every packet received and not yet flushed is intact in its slot. */
  ghost predicate SlotsIntact(file: seq<Byte>, t: Ring)
    requires t.Shape()
  {
    forall s :: t.next <= s < |t.flags| && t.flags[s] ==> t.slots[Slot(s)] == Block(file, s)
  }

  ghost predicate Faithful(file: seq<Byte>, t: Ring) {
    t.Frontier() && |t.flags| == TotalPackets(|file|) && DiskExact(file, t) && SlotsIntact(file, t)
  }

  /** Nothing has been received 1024 or more packets ahead of the flush frontier. */
  ghost predicate WithinLag(t: Ring) {
    forall s :: 0 <= s < |t.flags| && t.flags[s] ==> s < t.next + WINDOW_SIZE
  }

  /** Within a window of 1024 numbers each has a slot of its own. */
  lemma SlotsDistinct(a: nat, b: nat, base: nat)
    requires base <= a < base + WINDOW_SIZE && base <= b < base + WINDOW_SIZE && Slot(a) == Slot(b)
    ensures a == b
  {
  }

  /** Storing a packet spoils nothing if every pending packet it shares a slot with has the same bytes. */
  lemma AcceptKeepsFaithful(file: seq<Byte>, t: Ring, s: nat)
    requires Faithful(file, t) && s < |t.flags|
    requires Admits(t, s) ==>
               forall p :: t.next <= p < |t.flags| && t.flags[p] && Slot(p) == Slot(s) ==>
                             Block(file, p) == Block(file, s)
    ensures Faithful(file, Accept(t, s, Block(file, s)))
  {
  }

  lemma FlushKeepsFaithful(file: seq<Byte>, t: Ring)
    requires Faithful(file, t) && CanFlush(t)
    ensures Faithful(file, FlushOne(t))
  {
  }

  lemma AcceptInLag(file: seq<Byte>, t: Ring, s: nat)
    requires Faithful(file, t) && WithinLag(t) && s < |t.flags| && s < t.next + WINDOW_SIZE
    ensures Faithful(file, Accept(t, s, Block(file, s))) && WithinLag(Accept(t, s, Block(file, s)))
  {
    if Admits(t, s) {
      forall p | t.next <= p < |t.flags| && t.flags[p] && Slot(p) == Slot(s)
        ensures Block(file, p) == Block(file, s)
      {
        SlotsDistinct(p, s, t.next);
      }
    }
    AcceptKeepsFaithful(file, t, s);
  }

  lemma AcceptBeyondLag(file: seq<Byte>, t: Ring, s: nat)
    requires Faithful(file, t) && WithinLag(t) && s < |t.flags| && Admits(t, s) && s >= t.next + WINDOW_SIZE
    ensures SlotsIntact(file, Accept(t, s, Block(file, s))) <==> Block(file, s - WINDOW_SIZE) == Block(file, s)
  {
    var victim := s - WINDOW_SIZE;
    assert t.window <= t.next + WINDOW_SIZE by {
      assert t.window > 0 ==> t.flags[t.window - 1];
    }
    assert t.next <= victim < t.window && t.flags[victim] && Slot(victim) == Slot(s);
    if Block(file, victim) == Block(file, s) {
      forall p | t.next <= p < |t.flags| && t.flags[p] && Slot(p) == Slot(s)
        ensures Block(file, p) == Block(file, s)
      {
        SlotsDistinct(p, victim, t.next);
      }
      AcceptKeepsFaithful(file, t, s);
    }
  }

  /** One acceptance, exactly: beyond the lag the ring stays intact just when the packet it overwrites, 1024
      numbers earlier and still unflushed, has the same bytes. */
  lemma AcceptIntactExactly(file: seq<Byte>, t: Ring, s: nat)
    requires Faithful(file, t) && WithinLag(t) && s < |t.flags| && Admits(t, s)
    ensures SlotsIntact(file, Accept(t, s, Block(file, s))) <==>
              s < t.next + WINDOW_SIZE || Block(file, s - WINDOW_SIZE) == Block(file, s)
  {
    if s < t.next + WINDOW_SIZE {
      AcceptInLag(file, t, s);
    } else {
      AcceptBeyondLag(file, t, s);
    }
  }

  lemma StepKeepsFaithful(file: seq<Byte>, v: Server, e: Event, verify: Verifier)
    requires Faithful(file, v.ring) && WithinLag(v.ring) && Enabled(v, e) && Honest(file, e) && InLag(v.ring, e)
    ensures Faithful(file, Step(v, e, verify).ring) && WithinLag(Step(v, e, verify).ring)
  {
    StepRing(v, e, verify);
    match e
    case Data(s, _) =>
      if Admits(v.ring, s) {
        AcceptInLag(file, v.ring, s);
      }
    case Flush => FlushKeepsFaithful(file, v.ring);
    case _ =>
  }

  lemma StartFaithful(file: seq<Byte>, last: nat)
    requires |file| > 0
    ensures Faithful(file, Start(TotalPackets(|file|), last).ring)
    ensures WithinLag(Start(TotalPackets(|file|), last).ring)
  {
  }

  /** Integrity over whole runs, under the lag condition. */
  lemma {:induction false} LaggedRunFaithful(file: seq<Byte>, v: Server, es: seq<Event>, verify: Verifier)
    requires Faithful(file, v.ring) && WithinLag(v.ring)
    requires HonestRun(file, v, es, verify) && LaggedRun(v, es, verify)
    ensures Faithful(file, Run(v, es, verify).ring) && WithinLag(Run(v, es, verify).ring)
    ensures Run(v, es, verify).ring.flushed ==> Run(v, es, verify).ring.disk == file
    decreases |es|
  {
    if es == [] {
      PrefixAll(file, TotalPackets(|file|));
    } else {
      StepKeepsFaithful(file, v, es[0], verify);
      LaggedRunFaithful(file, Step(v, es[0], verify), es[1..], verify);
    }
  }

  /** Up to 1024 packets the lag condition holds by itself. */
  lemma {:induction false} SmallFileAlwaysLagged(v: Server, es: seq<Event>, verify: Verifier)
    requires ValidRun(v, es, verify) && v.ring.Shape() && |v.ring.flags| <= WINDOW_SIZE
    ensures LaggedRun(v, es, verify)
    decreases |es|
  {
    if es != [] {
      StepRing(v, es[0], verify);
      SmallFileAlwaysLagged(Step(v, es[0], verify), es[1..], verify);
    }
  }

  /** From the start of an upload: in every run within the lag, and in every run at all of a file of at most 1024
      packets, the disk holds exactly the flushed packets, and the source once the flush is finished. */
  lemma IntegrityWithinLag(file: seq<Byte>, last: nat, es: seq<Event>, verify: Verifier)
    requires |file| > 0 && HonestRun(file, Start(TotalPackets(|file|), last), es, verify)
    requires LaggedRun(Start(TotalPackets(|file|), last), es, verify) || TotalPackets(|file|) <= WINDOW_SIZE
    ensures DiskExact(file, Run(Start(TotalPackets(|file|), last), es, verify).ring)
    ensures var t := Run(Start(TotalPackets(|file|), last), es, verify).ring; t.flushed ==> t.disk == file
  {
    StartFaithful(file, last);
    if TotalPackets(|file|) <= WINDOW_SIZE {
      SmallFileAlwaysLagged(Start(TotalPackets(|file|), last), es, verify);
    }
    LaggedRunFaithful(file, Start(TotalPackets(|file|), last), es, verify);
  }

  /** Packets 1024 apart have the same bytes. */
  ghost predicate Periodic(file: seq<Byte>) {
    forall s :: 0 <= s && s + WINDOW_SIZE < TotalPackets(|file|) ==> Block(file, s) == Block(file, s + WINDOW_SIZE)
  }

  lemma {:induction false} PeriodicSlots(file: seq<Byte>, a: nat, b: nat)
    requires Periodic(file) && a <= b < TotalPackets(|file|) && Slot(a) == Slot(b)
    ensures Block(file, a) == Block(file, b)
    decreases b
  {
    if a < b {
      assert a <= b - WINDOW_SIZE && Slot(b - WINDOW_SIZE) == Slot(b);
      PeriodicSlots(file, a, b - WINDOW_SIZE);
    }
  }

  lemma PeriodicStepFaithful(file: seq<Byte>, v: Server, e: Event, verify: Verifier)
    requires Periodic(file) && Faithful(file, v.ring) && Enabled(v, e) && Honest(file, e)
    ensures Faithful(file, Step(v, e, verify).ring)
  {
    StepRing(v, e, verify);
    if e.Data? && Admits(v.ring, e.seqNo) {
      forall p | v.ring.next <= p < |v.ring.flags| && Slot(p) == Slot(e.seqNo)
        ensures Block(file, p) == Block(file, e.seqNo)
      {
        PeriodicSlots(file, if p <= e.seqNo then p else e.seqNo, if p <= e.seqNo then e.seqNo else p);
      }
      AcceptKeepsFaithful(file, v.ring, e.seqNo);
    } else if e.Flush? {
      FlushKeepsFaithful(file, v.ring);
    }
  }

  lemma {:induction false} PeriodicRunFaithful(file: seq<Byte>, v: Server, es: seq<Event>, verify: Verifier)
    requires Periodic(file) && Faithful(file, v.ring) && HonestRun(file, v, es, verify)
    ensures Faithful(file, Run(v, es, verify).ring)
    decreases |es|
  {
    if es != [] {
      PeriodicStepFaithful(file, v, es[0], verify);
      PeriodicRunFaithful(file, Step(v, es[0], verify), es[1..], verify);
    }
  }

  // ----- the failing run -----

  /** Everything below the receive frontier received, nothing from it on, and the flusher awake. */
  ghost predicate InOrder(file: seq<Byte>, v: Server) {
    && v.ring.Frontier() && Live(v) && v.flusher.Looking? && |v.ring.flags| == TotalPackets(|file|)
    && forall s :: v.ring.window <= s < |v.ring.flags| ==> !v.ring.flags[s]
  }

  /** Packets arrive in order, each once, interleaved with flusher turns. */
  ghost predicate Sequenced(file: seq<Byte>, v: Server, es: seq<Event>, verify: Verifier)
    requires ValidRun(v, es, verify)
    decreases |es|
  {
    es == []
    || ((es[0].Flush? || es[0] == Data(v.ring.window, Block(file, v.ring.window)))
        && Sequenced(file, Step(v, es[0], verify), es[1..], verify))
  }

  ghost predicate Orderly(file: seq<Byte>, v: Server, es: seq<Event>, verify: Verifier) {
    ValidRun(v, es, verify) && Sequenced(file, v, es, verify)
  }

  lemma {:induction false} OrderlyIsHonest(file: seq<Byte>, v: Server, es: seq<Event>, verify: Verifier)
    requires Orderly(file, v, es, verify)
    ensures HonestRun(file, v, es, verify)
    decreases |es|
  {
    if es != [] {
      OrderlyIsHonest(file, Step(v, es[0], verify), es[1..], verify);
      assert forall i :: 1 <= i < |es| ==> es[i] == es[1..][i - 1];
    }
  }

  lemma {:induction false} OrderlyConcat(
      file: seq<Byte>, v: Server, es: seq<Event>, more: seq<Event>, verify: Verifier)
    requires Orderly(file, v, es, verify) && Orderly(file, Run(v, es, verify), more, verify)
    ensures Orderly(file, v, es + more, verify)
    ensures Run(v, es + more, verify) == Run(Run(v, es, verify), more, verify)
    decreases |es|
  {
    RunConcat(v, es, more, verify);
    if es == [] {
      assert es + more == more;
    } else {
      OrderlyConcat(file, Step(v, es[0], verify), es[1..], more, verify);
      assert (es + more)[0] == es[0] && (es + more)[1..] == es[1..] + more;
    }
  }

  lemma OrderlyOne(file: seq<Byte>, v: Server, e: Event, verify: Verifier)
    requires Enabled(v, e) && (e.Flush? || e == Data(v.ring.window, Block(file, v.ring.window)))
    ensures Orderly(file, v, [e], verify) && Run(v, [e], verify) == Step(v, e, verify)
  {
    var w := Step(v, e, verify);
    assert [e][1..] == [] && ValidRun(w, [e][1..], verify) && Run(w, [e][1..], verify) == w;
  }

  lemma InOrderStep(file: seq<Byte>, v: Server, verify: Verifier)
    requires InOrder(file, v) && v.ring.window < TotalPackets(|file|)
    ensures var n := v.ring.window;
            var e := Data(n, Block(file, n));
            && Enabled(v, e) && InOrder(file, Step(v, e, verify))
            && var t := Step(v, e, verify).ring;
               && t.window == n + 1 && t.next == v.ring.next && t.disk == v.ring.disk
               && t.slots == v.ring.slots[Slot(n) := Block(file, n)]
  {
    var n := v.ring.window;
    StepRing(v, Data(n, Block(file, n)), verify);
    AcceptKeepsFrontier(v.ring, n, Block(file, n));
    var t := Accept(v.ring, n, Block(file, n));
    assert t.window == n + 1 by {
      assert n + 1 < |t.flags| ==> !t.flags[n + 1];
    }
  }

  /** Packets a..b-1 are in their slots. */
  ghost predicate Holds(file: seq<Byte>, slots: seq<seq<Byte>>, a: nat, b: nat)
    requires |slots| == WINDOW_SIZE
  {
    forall k :: a <= k < b ==> slots[Slot(k)] == Block(file, k)
  }

  ghost predicate Ready(file: seq<Byte>, v: Server) {
    && InOrder(file, v) && v.ring.window <= v.ring.next + WINDOW_SIZE
    && Holds(file, v.ring.slots, v.ring.next, v.ring.window)
  }

  /** The bytes of packets a..b-1. */
  function Between(file: seq<Byte>, a: nat, b: nat): seq<Byte>
    requires a <= b
  {
    file[Min(Offset(a), |file|)..Min(Offset(b), |file|)]
  }

  lemma BetweenExtend(file: seq<Byte>, disk: seq<Byte>, a: nat, b: nat)
    requires a <= b
    ensures disk + Between(file, a, b) + Block(file, b) == disk + Between(file, a, b + 1)
  {
    assert Between(file, a, b) + Block(file, b) == Between(file, a, b + 1);
  }

  /** Storing packet `n` in its slot overwrites packet `n` - 1024 at most. */
  lemma HoldsOneMore(file: seq<Byte>, slots: seq<seq<Byte>>, a: nat, n: nat)
    requires |slots| == WINDOW_SIZE && Holds(file, slots, a, n)
    ensures Holds(file, slots[Slot(n) := Block(file, n)],
                  if n + 1 < a + WINDOW_SIZE then a else n + 1 - WINDOW_SIZE, n + 1)
  {
    var from := if n + 1 < a + WINDOW_SIZE then a else n + 1 - WINDOW_SIZE;
    forall k | from <= k < n
      ensures Slot(k) != Slot(n)
    {
      if Slot(k) == Slot(n) {
        SlotsDistinct(k, n, from);
      }
    }
  }

  /** The flusher held, the next packet is delivered: it is accepted, and the last 1024 are in their slots. */
  lemma DeliverOne(file: seq<Byte>, v: Server, a: nat, verify: Verifier)
    requires InOrder(file, v) && v.ring.window < TotalPackets(|file|)
    requires Holds(file, v.ring.slots, a, v.ring.window)
    ensures var es, n := [Data(v.ring.window, Block(file, v.ring.window))], v.ring.window + 1;
            && Orderly(file, v, es, verify)
            && var w := Run(v, es, verify);
               && InOrder(file, w) && w.ring.window == n && w.ring.next == v.ring.next && w.ring.disk == v.ring.disk
               && Holds(file, w.ring.slots, if n < a + WINDOW_SIZE then a else n - WINDOW_SIZE, n)
  {
    InOrderStep(file, v, verify);
    HoldsOneMore(file, v.ring.slots, a, v.ring.window);
    OrderlyOne(file, v, Data(v.ring.window, Block(file, v.ring.window)), verify);
  }

  lemma {:induction false} Deliver(file: seq<Byte>, v: Server, a: nat, b: nat, verify: Verifier)
      returns (es: seq<Event>)
    requires InOrder(file, v) && v.ring.window <= b <= TotalPackets(|file|) && a <= b
    requires Holds(file, v.ring.slots, a, v.ring.window)
    ensures Orderly(file, v, es, verify)
    ensures var w := Run(v, es, verify);
            && InOrder(file, w) && w.ring.window == b && w.ring.next == v.ring.next && w.ring.disk == v.ring.disk
            && Holds(file, w.ring.slots, if b < a + WINDOW_SIZE then a else b - WINDOW_SIZE, b)
    decreases b - v.ring.window
  {
    es := [];
    if v.ring.window < b {
      DeliverOne(file, v, a, verify);
      var first, n := [Data(v.ring.window, Block(file, v.ring.window))], v.ring.window + 1;
      var from := if n < a + WINDOW_SIZE then a else n - WINDOW_SIZE;
      var rest := Deliver(file, Run(v, first, verify), from, b, verify);
      OrderlyConcat(file, v, first, rest, verify);
      es := first + rest;
    }
  }

  /** One flusher turn on a packet that sits in its slot. */
  lemma ReadyFlush(file: seq<Byte>, v: Server, verify: Verifier)
    requires Ready(file, v) && v.ring.next < v.ring.window
    ensures Enabled(v, Flush) && Ready(file, Step(v, Flush, verify))
    ensures Step(v, Flush, verify).ring ==
            v.ring.(disk := v.ring.disk + Block(file, v.ring.next), next := v.ring.next + 1,
                    flushed := v.ring.next + 1 == |v.ring.flags|)
  {
    FlushKeepsFrontier(v.ring);
  }

  /** The next packet is delivered if it has not been, and flushed. */
  lemma PaceOne(file: seq<Byte>, v: Server, verify: Verifier) returns (es: seq<Event>)
    requires Ready(file, v) && v.ring.next < TotalPackets(|file|)
    ensures Orderly(file, v, es, verify)
    ensures var t, n := Run(v, es, verify).ring, v.ring.next + 1;
            && Ready(file, Run(v, es, verify)) && t.next == n && t.disk == v.ring.disk + Block(file, n - 1)
            && t.window == if n < v.ring.window then v.ring.window else n
  {
    es := [];
    if v.ring.window == v.ring.next {
      DeliverOne(file, v, v.ring.next, verify);
      es := [Data(v.ring.window, Block(file, v.ring.window))];
    }
    var w := Run(v, es, verify);
    ReadyFlush(file, w, verify);
    OrderlyOne(file, w, Flush, verify);
    OrderlyConcat(file, v, es, [Flush], verify);
    es := es + [Flush];
  }

  /** From `v` the flusher has come to packet `n` with every byte right, and packets only as needed. */
  ghost predicate Paced(file: seq<Byte>, v: Server, w: Server, n: nat)
    requires v.ring.next <= n
  {
    && Ready(file, w) && w.ring.next == n
    && w.ring.window == (if n < v.ring.window then v.ring.window else n)
    && w.ring.disk == v.ring.disk + Between(file, v.ring.next, n)
  }

  lemma PacedOneMore(file: seq<Byte>, v: Server, w: Server, x: Server, n: nat)
    requires v.ring.next <= n && Paced(file, v, w, n) && Ready(file, x)
    requires x.ring.next == n + 1 && x.ring.disk == w.ring.disk + Block(file, n)
    requires x.ring.window == if n + 1 < w.ring.window then w.ring.window else n + 1
    ensures Paced(file, v, x, n + 1)
  {
    BetweenExtend(file, v.ring.disk, v.ring.next, n);
  }

  /** Flushing, and delivering only when there is nothing to flush, brings the flusher to `n` with every byte right. */
  lemma {:induction false} Pace(file: seq<Byte>, v: Server, n: nat, verify: Verifier) returns (es: seq<Event>)
    requires Ready(file, v) && v.ring.next <= n <= TotalPackets(|file|)
    ensures Orderly(file, v, es, verify) && Paced(file, v, Run(v, es, verify), n)
    decreases n
  {
    es := [];
    if v.ring.next == n {
      assert v.ring.disk + Between(file, n, n) == v.ring.disk;
    } else {
      es := Pace(file, v, n - 1, verify);
      var w := Run(v, es, verify);
      var more := PaceOne(file, w, verify);
      OrderlyConcat(file, v, es, more, verify);
      PacedOneMore(file, v, w, Run(w, more, verify), n - 1);
      es := es + more;
    }
  }

  /** Nothing flushed yet, and a first stretch received in order. */
  ghost predicate Unflushed(file: seq<Byte>, v: Server) {
    Ready(file, v) && v.ring.next == 0 && v.ring.disk == []
  }

  /** Packets 0..s flushed, packet `s` with the bytes of packet `s + 1024`. */
  ghost predicate OverrunState(file: seq<Byte>, v: Server, s: nat) {
    Ready(file, v) && v.ring.next == s + 1 && v.ring.disk == Prefix(file, s) + Block(file, s + WINDOW_SIZE)
  }

  /** The failing run: flush up to packet `s`, then deliver everything up to `s + 1024` before the flusher turns
      again. Every packet is accepted, and packet `s` is written with the bytes of packet `s + 1024`. */
  lemma OverrunSpoilsDisk(file: seq<Byte>, v: Server, s: nat, verify: Verifier) returns (es: seq<Event>)
    requires Unflushed(file, v) && s + WINDOW_SIZE < TotalPackets(|file|)
    ensures Orderly(file, v, es, verify)
    ensures OverrunState(file, Run(v, es, verify), s)
  {
    es := Pace(file, v, s, verify);
    var w := Run(v, es, verify);
    assert w.ring.disk == Prefix(file, s);
    var more := Deliver(file, w, s, s + WINDOW_SIZE + 1, verify);
    OrderlyConcat(file, v, es, more, verify);
    es := es + more;
    w := Run(v, es, verify);
    OverrunFlush(file, w, s, verify);
    OrderlyOne(file, w, Flush, verify);
    OrderlyConcat(file, v, es, [Flush], verify);
    es := es + [Flush];
  }

  lemma OverrunFlush(file: seq<Byte>, v: Server, s: nat, verify: Verifier)
    requires InOrder(file, v) && v.ring.window == s + WINDOW_SIZE + 1 && v.ring.next == s && DiskExact(file, v.ring)
    requires Holds(file, v.ring.slots, s + 1, s + WINDOW_SIZE + 1)
    ensures Enabled(v, Flush)
    ensures OverrunState(file, Step(v, Flush, verify), s)
  {
    FlushKeepsFrontier(v.ring);
    assert Slot(s) == Slot(s + WINDOW_SIZE);
  }

  /** The file with packet `s` replaced by packet `s + 1024`. */
  function Overwritten(file: seq<Byte>, s: nat): seq<Byte>
    requires s < TotalPackets(|file|)
  {
    Prefix(file, s) + Block(file, s + WINDOW_SIZE) + Between(file, s + 1, TotalPackets(|file|))
  }

  lemma OverwrittenDiffers(file: seq<Byte>, s: nat)
    requires s + WINDOW_SIZE < TotalPackets(|file|)
    ensures |Overwritten(file, s)| == |file| - FILE_DATA_LEN + |Block(file, s + WINDOW_SIZE)|
    ensures Overwritten(file, s) == file <==> Block(file, s) == Block(file, s + WINDOW_SIZE)
  {
    var total, data := TotalPackets(|file|), Block(file, s + WINDOW_SIZE);
    BlockBounds(file, s);
    assert file == Prefix(file, s) + Block(file, s) + Between(file, s + 1, total);
    if Block(file, s) != data && |data| == FILE_DATA_LEN {
      assert Overwritten(file, s)[Offset(s)..Offset(s + 1)] == data;
      assert file[Offset(s)..Offset(s + 1)] == Block(file, s);
    }
  }

  ghost predicate FinishedWrong(file: seq<Byte>, t: Ring) {
    t.flushed && t.window == |t.flags| && t.disk != file
  }

  /** Carried on to the end with every packet delivered and nothing more overwritten, the failing run finishes with
      exactly this file. */
  lemma OverrunSpoilsFile(file: seq<Byte>, v: Server, s: nat, verify: Verifier) returns (es: seq<Event>)
    requires Unflushed(file, v) && s + WINDOW_SIZE < TotalPackets(|file|)
    ensures Orderly(file, v, es, verify)
    ensures var w := Run(v, es, verify);
            InOrder(file, w) && w.ring.flushed && w.ring.window == |w.ring.flags| && w.ring.disk == Overwritten(file, s)
  {
    es := OverrunSpoilsDisk(file, v, s, verify);
    var more := Pace(file, Run(v, es, verify), TotalPackets(|file|), verify);
    OrderlyConcat(file, v, es, more, verify);
    es := es + more;
  }

  ghost predicate ExactInEveryRun(file: seq<Byte>, last: nat, verify: Verifier)
    requires |file| > 0
  {
    forall es :: HonestRun(file, Start(TotalPackets(|file|), last), es, verify) ==>
                   DiskExact(file, Run(Start(TotalPackets(|file|), last), es, verify).ring)
  }

  ghost predicate RightWhenFinished(file: seq<Byte>, last: nat, verify: Verifier)
    requires |file| > 0
  {
    forall es :: HonestRun(file, Start(TotalPackets(|file|), last), es, verify) ==>
                   var t := Run(Start(TotalPackets(|file|), last), es, verify).ring;
                   t.flushed ==> t.disk == file
  }

  lemma PeriodicIsExact(file: seq<Byte>, last: nat, verify: Verifier)
    requires |file| > 0 && Periodic(file)
    ensures ExactInEveryRun(file, last, verify) && RightWhenFinished(file, last, verify)
  {
    var start := Start(TotalPackets(|file|), last);
    StartFaithful(file, last);
    forall es | HonestRun(file, start, es, verify)
      ensures var t := Run(start, es, verify).ring; DiskExact(file, t) && (t.flushed ==> t.disk == file)
    {
      PeriodicRunFaithful(file, start, es, verify);
      PrefixAll(file, TotalPackets(|file|));
    }
  }

  lemma OverrunIsWrong(file: seq<Byte>, last: nat, s: nat, verify: Verifier)
    requires s + WINDOW_SIZE < TotalPackets(|file|) && Block(file, s) != Block(file, s + WINDOW_SIZE)
    ensures !ExactInEveryRun(file, last, verify) && !RightWhenFinished(file, last, verify)
  {
    var start := Start(TotalPackets(|file|), last);
    var es := OverrunSpoilsFile(file, start, s, verify);
    OrderlyIsHonest(file, start, es, verify);
    OverwrittenDiffers(file, s);
    PrefixAll(file, TotalPackets(|file|));
    var t := Run(start, es, verify).ring;
    assert t.flushed && t.disk != file && !DiskExact(file, t);
  }

  /** Without the lag condition, exactly: the disk is right in every run, and the finished file is the source
      in every run that finishes, if and only if packets 1024 apart carry the same bytes. Any file of at most
      1024 packets is such a file. */
  lemma IntegrityExactly(file: seq<Byte>, last: nat, verify: Verifier)
    requires |file| > 0
    ensures ExactInEveryRun(file, last, verify) <==> Periodic(file)
    ensures RightWhenFinished(file, last, verify) <==> Periodic(file)
    ensures TotalPackets(|file|) <= WINDOW_SIZE ==> Periodic(file)
  {
    if Periodic(file) {
      PeriodicIsExact(file, last, verify);
    } else {
      var s :| 0 <= s && s + WINDOW_SIZE < TotalPackets(|file|) && Block(file, s) != Block(file, s + WINDOW_SIZE);
      OverrunIsWrong(file, last, s, verify);
    }
  }
}
