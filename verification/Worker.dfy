/** The logic queue: producers post under a mutex and notify after releasing it, one worker waits on a condition
    variable, handles messages while holding the mutex, and drains the queue when told to stop. */
module Worker {

  datatype Role = Client | Server
  datatype Node = Node(role: Role, msgId: int, payload: int)

  /** The imperative side: the queue, the callback tables, and the calls made. */
  class LogicSystem {
    const clientCallbacks: set<int>
    const serverCallbacks: set<int>
    var queue: seq<Node>
    var called: seq<Node>
    ghost var handled: seq<Node>

    /** The calls made are those of the nodes handled. */
    ghost predicate Valid()
      reads this
    {
      called == Calls(handled)
    }

    constructor (clientCallbacks: set<int>, serverCallbacks: set<int>)
      ensures this.clientCallbacks == clientCallbacks && this.serverCallbacks == serverCallbacks
      ensures Valid() && queue == [] && called == [] && handled == []
    {
      this.clientCallbacks, this.serverCallbacks := clientCallbacks, serverCallbacks;
      queue, called, handled := [], [], [];
    }

    predicate HasCallback(n: Node) {
      n.msgId in if n.role.Client? then clientCallbacks else serverCallbacks
    }

    /** The callbacks the nodes lead to, in order: nodes of an unregistered kind are dropped. */
    function Calls(nodes: seq<Node>): (calls: seq<Node>)
    {
      if nodes == [] then []
      else
        var n := nodes[|nodes| - 1];
        Calls(nodes[..|nodes| - 1]) + if HasCallback(n) then [n] else []
    }

    /** The positions of the nodes that lead to a call. */
    function CalledAt(nodes: seq<Node>): seq<nat> {
      if nodes == [] then []
      else
        var k := |nodes| - 1;
        CalledAt(nodes[..k]) + if HasCallback(nodes[k]) then [k] else []
    }

    lemma {:induction false} CalledInOrder(nodes: seq<Node>)
      ensures |CalledAt(nodes)| == |Calls(nodes)|
      ensures forall i :: 0 <= i < |CalledAt(nodes)| ==> CalledAt(nodes)[i] < |nodes|
      ensures forall i :: 0 <= i < |CalledAt(nodes)| ==> nodes[CalledAt(nodes)[i]] == Calls(nodes)[i]
      ensures forall i, j :: 0 <= i < j < |CalledAt(nodes)| ==> CalledAt(nodes)[i] < CalledAt(nodes)[j]
    {
      if nodes != [] {
        CalledInOrder(nodes[..|nodes| - 1]);
      }
    }

    lemma {:induction false} CalledIfRegistered(nodes: seq<Node>, k: nat)
      requires k < |nodes|
      ensures k in CalledAt(nodes) <==> || (nodes[k].role == Client && nodes[k].msgId in clientCallbacks)
                                        || (nodes[k].role == Server && nodes[k].msgId in serverCallbacks)
    {
      CalledInOrder(nodes[..|nodes| - 1]);
      if k < |nodes| - 1 {
        CalledIfRegistered(nodes[..|nodes| - 1], k);
      }
    }

    /** What the calls are, on the tables: the nodes of a client whose kind the client's table registers and those of
        a server whose kind the server's table registers, at these positions and in this order, and no others. */
    lemma CallsExactly(nodes: seq<Node>)
      ensures var at := CalledAt(nodes);
              && |at| == |Calls(nodes)|
              && (forall i :: 0 <= i < |at| ==> at[i] < |nodes| && nodes[at[i]] == Calls(nodes)[i])
              && (forall i, j :: 0 <= i < j < |at| ==> at[i] < at[j])
              && forall k :: 0 <= k < |nodes| ==>
                   (k in at <==> || (nodes[k].role == Client && nodes[k].msgId in clientCallbacks)
                                 || (nodes[k].role == Server && nodes[k].msgId in serverCallbacks))
    {
      CalledInOrder(nodes);
      forall k | 0 <= k < |nodes|
        ensures k in CalledAt(nodes) <==> || (nodes[k].role == Client && nodes[k].msgId in clientCallbacks)
                                          || (nodes[k].role == Server && nodes[k].msgId in serverCallbacks)
      {
        CalledIfRegistered(nodes, k);
      }
    }

    /** So each of them is called as often as it was handled, and no other is. */
    lemma {:induction false} CallsCount(nodes: seq<Node>, n: Node)
      ensures multiset(Calls(nodes))[n] ==
              if (n.role == Client && n.msgId in clientCallbacks) || (n.role == Server && n.msgId in serverCallbacks)
              then multiset(nodes)[n] else 0
    {
      if nodes != [] {
        var k := |nodes| - 1;
        CallsCount(nodes[..k], n);
        assert nodes == nodes[..k] + [nodes[k]];
      }
    }

    /** The object is in the state `p` describes. */
    ghost predicate Is(p: Pool)
      reads this
    {
      queue == p.queue && handled == p.handled
    }

    /** Post under the mutex; the caller notifies afterwards if told to. */
    method PostMesgToQue(node: Node, ghost p: Pool) returns (notify: bool)
      requires Is(p) && MutexFree(p)
      modifies this`queue
      ensures queue == old(queue) + [node]
      ensures Is(Step(p, Post(node)))
      ensures notify == (old(queue) == []) == (Step(p, Post(node)).owed == p.owed + 1)
    {
      queue := queue + [node];
      notify := |queue| == 1;
    }

    /** One turn of the loop: handle the front, then pop it. */
    method HandleFront()
      requires Valid() && queue != []
      modifies this
      ensures Valid()
      ensures queue == old(queue)[1..] && handled == old(handled) + [old(queue)[0]]
      ensures var n := old(queue)[0];
              called == old(called) + if (n.role == Client && n.msgId in clientCallbacks)
                                         || (n.role == Server && n.msgId in serverCallbacks) then [n] else []
    {
      var node := queue[0];
      handled := handled + [node];
      assert handled[..|handled| - 1] == old(handled);
      if !HasCallback(node) {
        queue := queue[1..];
        return;
      }
      called := called + [node];
      queue := queue[1..];
    }

    /** The turn of a running worker is the pool's HandleOne. */
    method DealOne(ghost p: Pool)
      requires Valid() && Is(p) && Enabled(p, HandleOne)
      modifies this
      ensures Valid() && Is(Step(p, HandleOne))
    {
      HandleFront();
    }

    /** The stop branch: everything queued is handled, in order, as by the pool's draining steps. */
    method DrainOnStop(ghost p: Pool)
      requires Valid() && Is(p) && p.worker.Draining?
      modifies this
      ensures Valid() && queue == [] && handled == old(handled) + old(queue)
      ensures ValidRun(p, Drains(|p.queue|)) && Is(Run(p, Drains(|p.queue|)))
    {
      while queue != []
        invariant Valid() && handled + queue == old(handled) + old(queue)
        decreases |queue|
      {
        HandleFront();
      }
      DrainRun(p);
    }
  }

  // ----- interleavings -----

  /** Where the worker is. It holds the mutex in Looking, AboutToWait, Handling and Draining. */
  datatype Position = Free | Looking | AboutToWait | Waiting | Handling | Draining | Exited

  /** `owed` counts producers that found the queue empty, have released the mutex and not yet notified.
      `stopOwed`: the destructor has set m_stop and not yet notified. */
  datatype Pool = Pool(
    queue: seq<Node>, posted: seq<Node>, handled: seq<Node>, worker: Position,
    owed: nat, stop: bool, stopOwed: bool)

  datatype Action =
    | Post(n: Node) | Notify | SpuriousWakeup
    | Acquire | Look | Sleep | HandleOne | DrainOne | Exit
    | SetStop | StopNotify

  predicate MutexFree(p: Pool) {
    p.worker.Free? || p.worker.Waiting? || p.worker.Exited?
  }

  predicate Enabled(p: Pool, a: Action) {
    match a
    case Post(_) => MutexFree(p)
    case Notify => p.owed > 0
    case SpuriousWakeup => p.worker.Waiting?
    case Acquire => p.worker.Free?
    case Look => p.worker.Looking?
    case Sleep => p.worker.AboutToWait?
    case HandleOne => p.worker.Handling? && p.queue != []
    case DrainOne => p.worker.Draining? && p.queue != []
    case Exit => p.worker.Draining? && p.queue == []
    case SetStop => !p.stop
    case StopNotify => p.stopOwed
  }

  function Wake(worker: Position): Position {
    if worker.Waiting? then Free else worker
  }

  function Step(p: Pool, a: Action): Pool
    requires Enabled(p, a)
  {
    match a
    case Post(n) =>
      p.(queue := p.queue + [n], posted := p.posted + [n], owed := p.owed + if p.queue == [] then 1 else 0)
    case Notify => p.(owed := p.owed - 1, worker := Wake(p.worker))
    case SpuriousWakeup => p.(worker := Free)
    case Acquire => p.(worker := Looking)
    case Look => p.(worker := if p.stop then Draining else if p.queue == [] then AboutToWait else Handling)
    case Sleep => p.(worker := Waiting)
    case HandleOne => p.(queue := p.queue[1..], handled := p.handled + [p.queue[0]], worker := Free)
    case DrainOne => p.(queue := p.queue[1..], handled := p.handled + [p.queue[0]])
    case Exit => p.(worker := Exited)
    case SetStop => p.(stop := true, stopOwed := true)
    case StopNotify => p.(stopOwed := false, worker := Wake(p.worker))
  }

  const IDLE := Pool([], [], [], Free, 0, false, false)

  ghost predicate ValidRun(p: Pool, acts: seq<Action>)
    decreases |acts|
  {
    acts == [] || (Enabled(p, acts[0]) && ValidRun(Step(p, acts[0]), acts[1..]))
  }

  ghost function Run(p: Pool, acts: seq<Action>): Pool
    requires ValidRun(p, acts)
    decreases |acts|
  {
    if acts == [] then p else Run(Step(p, acts[0]), acts[1..])
  }

  ghost predicate Sound(p: Pool) {
    && p.posted == p.handled + p.queue
    && (p.worker.AboutToWait? ==> p.queue == [])
    && (p.worker.Handling? ==> p.queue != [])
    && (p.worker.Waiting? && p.queue != [] ==> p.owed > 0)
    && ((p.worker.Draining? || p.worker.Exited?) ==> p.stop)
  }

  lemma StepSound(p: Pool, a: Action)
    requires Sound(p) && Enabled(p, a)
    ensures Sound(Step(p, a))
  {
  }

  /** In every run with any number of producers: what is handled is a prefix of what was posted, in order, and
      the rest is queued; while the worker sleeps on a non-empty queue some producer still owes it a
      notification; the mutex excludes posting while a message is handled. */
  lemma {:induction false} NoLostWakeup(p: Pool, acts: seq<Action>)
    requires Sound(p) && ValidRun(p, acts)
    ensures var q := Run(p, acts);
            && q.posted == q.handled + q.queue
            && (q.worker.Waiting? && q.queue != [] ==> Enabled(q, Notify) && Step(q, Notify).worker.Free?)
    ensures Sound(Run(p, acts))
    decreases |acts|
  {
    if acts != [] {
      StepSound(p, acts[0]);
      NoLostWakeup(Step(p, acts[0]), acts[1..]);
    }
  }

  /** Steps left until the front of a non-empty queue is handled, when nobody posts and nobody stops. */
  function Distance(p: Pool): nat {
    match p.worker
    case Waiting => 3
    case Free => 2
    case Looking => 1
    case _ => 0
  }

  /** Towards the next message: from any sound state with a queued message and a running worker there is a step
      of the pool itself that handles the front or brings the worker nearer to it. */
  lemma QueuedMessageProgress(p: Pool)
    requires Sound(p) && p.queue != [] && !p.worker.Exited?
    ensures exists a: Action :: !a.Post? && !a.SetStop? && Enabled(p, a) &&
              (Step(p, a).handled == p.handled + [p.queue[0]]
               || (Step(p, a).handled == p.handled && Distance(Step(p, a)) < Distance(p)))
  {
    var a := match p.worker
      case Waiting => Notify
      case Free => Acquire
      case Looking => Look
      case Draining => DrainOne
      case _ => HandleOne;
    assert Enabled(p, a);
  }

  /** The worker never keeps the mutex for longer than it looks and handles one message, unless it drains: at most two
      steps of its own and it can be posted to. */
  lemma MutexComesFree(p: Pool, n: Node) returns (acts: seq<Action>)
    requires Sound(p) && !p.worker.Draining? && !(p.worker.Looking? && p.stop)
    ensures |acts| <= 2 && forall i :: 0 <= i < |acts| ==> acts[i] in {Look, Sleep, HandleOne}
    ensures ValidRun(p, acts) && Enabled(Run(p, acts), Post(n))
    ensures |Run(p, acts).handled| <= |p.handled| + 1
  {
    acts := match p.worker
      case Looking => [Look] + if p.queue == [] then [Sleep] else [HandleOne]
      case AboutToWait => [Sleep]
      case Handling => [HandleOne]
      case _ => [];
    if |acts| == 2 {
      RunFirst(Step(p, acts[0]), acts[1], []);
      assert [acts[1]] + [] == [acts[1]] && acts == [acts[0]] + [acts[1]];
      RunFirst(p, acts[0], [acts[1]]);
    } else if |acts| == 1 {
      RunFirst(p, acts[0], []);
      assert acts == [acts[0]] + [];
    }
  }

  /** When the worker exits everything posted so far has been handled. */
  lemma ExitDrained(p: Pool)
    requires Sound(p) && Enabled(p, Exit)
    ensures Step(p, Exit).handled == p.posted
  {
  }

  function Drains(n: nat): seq<Action> { seq(n, _ => DrainOne) }

  /** Draining handles the whole queue in order and leaves the worker ready to exit. */
  lemma {:induction false} DrainRun(p: Pool)
    requires p.worker.Draining?
    ensures ValidRun(p, Drains(|p.queue|))
    ensures Run(p, Drains(|p.queue|)) == p.(queue := [], handled := p.handled + p.queue)
    ensures Enabled(Run(p, Drains(|p.queue|)), Exit)
    decreases |p.queue|
  {
    if p.queue == [] {
      assert p.handled + p.queue == p.handled;
    } else {
      var q := Step(p, DrainOne);
      DrainRun(q);
      RunFirst(p, DrainOne, Drains(|q.queue|));
      assert [DrainOne] + Drains(|q.queue|) == Drains(|p.queue|);
      assert q.handled + q.queue == p.handled + p.queue;
    }
  }

  /** When the worker looks and is told to stop, queued messages or not, it keeps the mutex until it has handled
      everything posted and exits: nothing else is possible for it, and nothing can be posted in between. */
  lemma StopSeen(p: Pool)
    requires Sound(p) && p.stop && Enabled(p, Look)
    ensures var acts := [Look] + Drains(|p.queue|);
            && ValidRun(p, acts) && Enabled(Run(p, acts), Exit) && Step(Run(p, acts), Exit).handled == p.posted
    ensures var q := Step(p, Look);
            forall a :: Enabled(q, a) && !a.Notify? && !a.StopNotify? && !a.SetStop? ==>
                          a == if p.queue != [] then DrainOne else Exit
  {
    var q := Step(p, Look);
    DrainRun(q);
    RunFirst(p, Look, Drains(|p.queue|));
  }

  lemma RunFirst(p: Pool, a: Action, rest: seq<Action>)
    requires Enabled(p, a) && ValidRun(Step(p, a), rest)
    ensures ValidRun(p, [a] + rest) && Run(p, [a] + rest) == Run(Step(p, a), rest)
  {
    assert ([a] + rest)[0] == a && ([a] + rest)[1..] == rest;
  }

  /** The pool is told to stop, the worker sleeps, and nobody owes it a notification. */
  predicate StopLost(p: Pool) {
    p.stop && !p.stopOwed && p.owed == 0 && p.worker.Waiting?
  }

  /** As long as this holds the stop signal is not lost. */
  predicate StopKept(p: Pool) {
    p.stop && !p.worker.AboutToWait? && (p.worker.Waiting? ==> p.stopOwed)
  }

  lemma {:induction false} StopStaysKept(p: Pool, acts: seq<Action>)
    requires StopKept(p) && ValidRun(p, acts)
    ensures StopKept(Run(p, acts))
    decreases |acts|
  {
    if acts != [] {
      StopStaysKept(Step(p, acts[0]), acts[1..]);
    }
  }

  ghost predicate CanLoseStop(p: Pool)
    requires !p.stop
  {
    exists acts :: ValidRun(Step(p, SetStop), acts) && StopLost(Run(Step(p, SetStop), acts))
  }

  /** A notification that finds the worker not yet asleep does nothing. */
  lemma {:induction false} NotifiedTooEarly(p: Pool) returns (acts: seq<Action>)
    requires p.worker.AboutToWait? && p.stop && !p.stopOwed
    ensures ValidRun(p, acts) && StopLost(Run(p, acts))
    decreases p.owed
  {
    if p.owed == 0 {
      RunFirst(p, Sleep, []);
      acts := [Sleep] + [];
    } else {
      acts := NotifiedTooEarly(Step(p, Notify));
      RunFirst(p, Notify, acts);
      acts := [Notify] + acts;
    }
  }

  /** When the stop signal can be lost, exactly: m_stop is set without the mutex, and if the worker is then between
      its look at the flag and its wait, and only then, some run puts it to sleep with nobody owing it a wakeup. */
  lemma StopLostExactly(p: Pool)
    requires Sound(p) && !p.stop
    ensures CanLoseStop(p) <==> p.worker.AboutToWait?
  {
    var q := Step(p, SetStop);
    if p.worker.AboutToWait? {
      var acts := NotifiedTooEarly(Step(q, StopNotify));
      RunFirst(q, StopNotify, acts);
      assert StopLost(Run(q, [StopNotify] + acts));
    } else {
      forall acts | ValidRun(q, acts)
        ensures !StopLost(Run(q, acts))
      {
        StopStaysKept(q, acts);
      }
    }
  }

  /** Setting m_stop under the mutex would be enough: whatever producers owe, no run then loses the signal. */
  lemma StopUnderMutexIsKept(p: Pool, acts: seq<Action>)
    requires Sound(p) && !p.stop && MutexFree(p) && ValidRun(Step(p, SetStop), acts)
    ensures StopKept(Run(Step(p, SetStop), acts)) && !StopLost(Run(Step(p, SetStop), acts))
  {
    StopStaysKept(Step(p, SetStop), acts);
  }

  /** The position between look and wait is reachable, so the signal can be lost from the start. */
  lemma StopCanBeLost()
    ensures exists acts :: ValidRun(IDLE, acts) && !Run(IDLE, acts).stop && CanLoseStop(Run(IDLE, acts))
  {
    var a := Step(IDLE, Acquire);
    RunFirst(a, Look, []);
    RunFirst(IDLE, Acquire, [Look] + []);
    StopLostExactly(Run(IDLE, [Acquire] + ([Look] + [])));
  }
}
