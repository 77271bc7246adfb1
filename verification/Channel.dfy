/** The message channel: SendNode frames, the send queue with one write in flight, the wire, the head/body
    reader and the logic queue. */
module Channel {
  import opened Streams

  const MSGID_MIN: int := 1001
  const MSGID_MAX: int := 3002
  const MAX_LENGTH: int := 2048
  const MAX_SENDQUE: nat := 500000

  type Short = x: int | -0x8000 <= x < 0x8000

  datatype Message = Message(id: Short, body: seq<Byte>)

  /** Two bytes, high byte first, two's complement. */
  function ToNetwork(x: Short): seq<Byte> {
    var u := x % 0x10000;
    [u / 256, u % 256]
  }

  function ToHost(high: Byte, low: Byte): Short {
    var u := high * 256 + low;
    if u < 0x8000 then u else u - 0x10000
  }

  function Header(id: Short, len: Short): seq<Byte> {
    ToNetwork(id) + ToNetwork(len)
  }

  /** A message the channel is specified for: a known id range and a body that fits m_Data. */
  predicate Fits(m: Message) {
    MSGID_MIN <= m.id <= MSGID_MAX && |m.body| <= MAX_LENGTH
  }

  function Frame(m: Message): seq<Byte>
    requires |m.body| < 0x8000
  {
    Header(m.id, |m.body|) + m.body
  }

  /** What the reader makes of a header. `Overrun`: the length passes the check against 4000 but is negative or
      exceeds the 2048-byte buffer. */
  datatype Verdict = Http | InvalidId | InvalidLength | Overrun | Body(id: Short, len: nat)

  const HTTP_GET: seq<Byte> := [71, 69, 84, 32]
  const HTTP_POST: seq<Byte> := [80, 79, 83, 84]

  function Classify(head: seq<Byte>): Verdict
    requires |head| == 4
  {
    var id, len := ToHost(head[0], head[1]), ToHost(head[2], head[3]);
    if head == HTTP_GET || head == HTTP_POST then Http
    else if id > MSGID_MAX || id < MSGID_MIN then InvalidId
    else if len > 4000 then InvalidLength
    else if len < 0 || len > MAX_LENGTH then Overrun
    else Body(id, len)
  }

  lemma HeaderRoundTrip(id: Short, len: Short)
    ensures |Header(id, len)| == 4
    ensures ToHost(Header(id, len)[0], Header(id, len)[1]) == id
    ensures ToHost(Header(id, len)[2], Header(id, len)[3]) == len
  {
  }

  /** What any four bytes are taken for, by numbers alone: the start of an HTTP request exactly for "GET " and "POST",
      otherwise by id and length. */
  lemma HeaderReadExactly(id: Short, len: Short)
    ensures |Header(id, len)| == 4
    ensures Classify(Header(id, len)) ==
            if (id == 0x4745 && len == 0x5420) || (id == 0x504F && len == 0x5354) then Http
            else if id < 1001 || id > 3002 then InvalidId
            else if len > 4000 then InvalidLength
            else if len < 0 || len > 2048 then Overrun
            else Body(id, len)
  {
    HeaderRoundTrip(id, len);
    var h := Header(id, len);
    assert ToHost(71, 69) == 0x4745 && ToHost(84, 32) == 0x5420 && ToHost(80, 79) == 0x504F && ToHost(83, 84) == 0x5354;
    assert h == HTTP_GET <==> h[0] == 71 && h[1] == 69 && h[2] == 84 && h[3] == 32;
    assert h == HTTP_POST <==> h[0] == 80 && h[1] == 79 && h[2] == 83 && h[3] == 84;
  }

  /** SendNode: a buffer of m_TotalLen bytes plus a terminating zero. */
  class SendNode {
    const data: array<Byte>
    const totalLen: nat

    constructor (m: Message)
      requires |m.body| < 0x8000 - 4
      ensures fresh(data) && data.Length == totalLen + 1
      ensures data[..totalLen] == Frame(m) && data[totalLen] == 0
    {
      var buffer := new Byte[|m.body| + 5](_ => 0);
      var id, len := ToNetwork(m.id), ToNetwork(|m.body|);
      CopyInto(buffer, 0, id);
      CopyInto(buffer, 2, len);
      assert buffer[..4] == id + len;
      assert buffer[|m.body| + 4] == 0;
      CopyInto(buffer, 4, m.body);
      assert buffer[..] == id + len + m.body + [0];
      assert buffer[..|m.body| + 4] == id + len + m.body;
      data := buffer;
      totalLen := |m.body| + 4;
    }
  }

  /** memcpy to an offset. */
  method CopyInto(dst: array<Byte>, at: nat, src: seq<Byte>)
    requires at + |src| <= dst.Length
    modifies dst
    ensures dst[..] == old(dst[..at]) + src + old(dst[at + |src|..])
    ensures forall i :: 0 <= i < dst.Length && !(at <= i < at + |src|) ==> dst[i] == old(dst[i])
  {
    for i := 0 to |src|
      invariant forall j :: 0 <= j < i ==> dst[at + j] == src[j]
      invariant forall j :: 0 <= j < dst.Length && !(at <= j < at + i) ==> dst[j] == old(dst[j])
    {
      dst[at + i] := src[i];
    }
    assert dst[..at] == old(dst[..at]) && dst[at..at + |src|] == src && dst[at + |src|..] == old(dst[at + |src|..]);
    assert dst[..] == dst[..at] + dst[at..at + |src|] + dst[at + |src|..];
  }

  // ----- the two ends as a transition system -----

  datatype Reader = AwaitHead | AwaitBody(id: Short, len: nat) | Stopped

  /** `queue` is m_SendQue; its front is being written and `written` of its bytes are on the wire. `accepted` is
      the history of messages Send enqueued, `inbox` the logic queue, `handled` what the worker has taken. */
  datatype Channel = Channel(
    queue: seq<seq<Byte>>, written: nat, wire: seq<Byte>, reader: Reader,
    inbox: seq<Message>, handled: seq<Message>, accepted: seq<Message>)

  datatype Action = Send(m: Message) | Write(n: nat) | WriteDone | ReadHead | ReadBody | Handle

  predicate Enabled(c: Channel, a: Action) {
    match a
    case Send(m) => Fits(m)
    case Write(n) => c.queue != [] && 0 < n && c.written + n <= |c.queue[0]|
    case WriteDone => c.queue != [] && c.written == |c.queue[0]|
    case ReadHead => c.reader.AwaitHead? && |c.wire| >= 4
    case ReadBody => c.reader.AwaitBody? && |c.wire| >= c.reader.len
    case Handle => c.inbox != []
  }

  function DoSend(c: Channel, m: Message): Channel
    requires |m.body| < 0x8000
  {
    if |c.queue| > MAX_SENDQUE then c
    else c.(queue := c.queue + [Frame(m)], accepted := c.accepted + [m])
  }

  /** Send accepts every message while at most 500000 are queued, and none beyond; what it accepts goes to the end of
      the queue as id, length and body, two bytes each for id and length with the high byte first. */
  lemma SendAcceptsExactly(c: Channel, m: Message)
    requires 1001 <= m.id <= 3002 && |m.body| <= 2048
    ensures var d := Step(c, Send(m));
            if |c.queue| <= 500000
            then && d.accepted == c.accepted + [m]
                 && d.queue == c.queue + [[m.id / 256, m.id % 256, |m.body| / 256, |m.body| % 256] + m.body]
            else d == c
  {
    assert ToNetwork(m.id) == [m.id / 256, m.id % 256];
    assert ToNetwork(|m.body|) == [|m.body| / 256, |m.body| % 256];
    assert Frame(m) == [m.id / 256, m.id % 256, |m.body| / 256, |m.body| % 256] + m.body;
  }

  function AfterHead(head: seq<Byte>): Reader
    requires |head| == 4
  {
    var v := Classify(head);
    if v.Body? then AwaitBody(v.id, v.len) else Stopped
  }

  function Step(c: Channel, a: Action): Channel
    requires Enabled(c, a)
  {
    match a
    case Send(m) => DoSend(c, m)
    case Write(n) =>
      c.(written := c.written + n, wire := c.wire + c.queue[0][c.written..c.written + n])
    case WriteDone => c.(queue := c.queue[1..], written := 0)
    case ReadHead => c.(reader := AfterHead(c.wire[..4]), wire := c.wire[4..])
    case ReadBody =>
      c.(reader := AwaitHead, wire := c.wire[c.reader.len..],
         inbox := c.inbox + [Message(c.reader.id, c.wire[..c.reader.len])])
    case Handle => c.(inbox := c.inbox[1..], handled := c.handled + [c.inbox[0]])
  }

  /** What the reader makes of a head, by numbers alone: only ids 1001 to 3002 with lengths up to 2048 are read on, and
      anything else ends the reading. */
  lemma ReadHeadExactly(c: Channel, id: Short, len: Short, rest: seq<Byte>)
    requires c.reader.AwaitHead? && c.wire == Header(id, len) + rest
    ensures Enabled(c, ReadHead)
    ensures Step(c, ReadHead) == c.(wire := rest, reader :=
              if 1001 <= id <= 3002 && 0 <= len <= 2048 then AwaitBody(id, len) else Stopped)
  {
    HeaderReadExactly(id, len);
    assert c.wire[..4] == Header(id, len) && c.wire[4..] == rest;
  }

  /** After that nothing is posted any more. */
  lemma {:induction false} StoppedForever(c: Channel, acts: seq<Action>)
    requires c.reader.Stopped? && ValidRun(c, acts)
    ensures Run(c, acts).reader.Stopped? && Run(c, acts).handled + Run(c, acts).inbox == c.handled + c.inbox
    decreases |acts|
  {
    if acts != [] {
      assert acts[0].Handle? ==> c.inbox == [c.inbox[0]] + c.inbox[1..];
      StoppedForever(Step(c, acts[0]), acts[1..]);
    }
  }

  const IDLE := Channel([], 0, [], AwaitHead, [], [], [])

  ghost predicate ValidRun(c: Channel, acts: seq<Action>)
    decreases |acts|
  {
    acts == [] || (Enabled(c, acts[0]) && ValidRun(Step(c, acts[0]), acts[1..]))
  }

  ghost function Run(c: Channel, acts: seq<Action>): Channel
    requires ValidRun(c, acts)
    decreases |acts|
  {
    if acts == [] then c else Run(Step(c, acts[0]), acts[1..])
  }

  function Glue(parts: seq<seq<Byte>>): seq<Byte> {
    if parts == [] then [] else parts[0] + Glue(parts[1..])
  }

  function Frames(ms: seq<Message>): seq<Byte>
    requires forall i :: 0 <= i < |ms| ==> Fits(ms[i])
  {
    if ms == [] then [] else assert Fits(ms[0]); Frame(ms[0]) + Frames(ms[1..])
  }

  /** The bytes sent but not yet read: those on the wire and those still in the send queue. */
  function Unread(c: Channel): seq<Byte>
    requires c.queue != [] ==> c.written <= |c.queue[0]|
  {
    c.wire + if c.queue == [] then [] else c.queue[0][c.written..] + Glue(c.queue[1..])
  }

  /** The invariant, with `ahead` the messages accepted but not yet delivered to the logic queue. */
  ghost predicate Carries(c: Channel, ahead: seq<Message>) {
    && (c.queue == [] ==> c.written == 0) && (c.queue != [] ==> c.written <= |c.queue[0]|)
    && (forall i :: 0 <= i < |ahead| ==> Fits(ahead[i]))
    && c.accepted == c.handled + c.inbox + ahead
    && match c.reader
       case AwaitHead => Unread(c) == Frames(ahead)
       case AwaitBody(id, len) =>
         && ahead != [] && ahead[0].id == id && |ahead[0].body| == len
         && Unread(c) == ahead[0].body + Frames(ahead[1..])
       case Stopped => false
  }

  ghost predicate Refines(c: Channel) {
    exists ahead :: Carries(c, ahead)
  }

  lemma {:induction false} GlueSnoc(parts: seq<seq<Byte>>, x: seq<Byte>)
    ensures Glue(parts + [x]) == Glue(parts) + x
  {
    if parts == [] {
      assert [x][1..] == [];
    } else {
      GlueSnoc(parts[1..], x);
      assert (parts + [x])[1..] == parts[1..] + [x];
    }
  }

  lemma {:induction false} FramesSnoc(ms: seq<Message>, m: Message)
    requires Fits(m) && forall i :: 0 <= i < |ms| ==> Fits(ms[i])
    ensures Frames(ms + [m]) == Frames(ms) + Frame(m)
  {
    if ms == [] {
      assert [m][1..] == [];
    } else {
      FramesSnoc(ms[1..], m);
      assert (ms + [m])[1..] == ms[1..] + [m];
    }
  }

  lemma FramesNotEmpty(ms: seq<Message>)
    requires forall i :: 0 <= i < |ms| ==> Fits(ms[i])
    ensures ms != [] ==> |Frames(ms)| >= 4
  {
  }

  lemma SendAppends(c: Channel, m: Message)
    requires Fits(m) && |c.queue| <= MAX_SENDQUE
    requires if c.queue == [] then c.written == 0 else c.written <= |c.queue[0]|
    ensures Unread(DoSend(c, m)) == Unread(c) + Frame(m)
  {
    var d := DoSend(c, m);
    if c.queue == [] {
      assert d.queue[1..] == [] && d.queue[0][0..] == Frame(m);
    } else {
      GlueSnoc(c.queue[1..], Frame(m));
      assert d.queue[1..] == c.queue[1..] + [Frame(m)];
    }
  }

  lemma SendCarries(c: Channel, m: Message, ahead: seq<Message>)
    requires Carries(c, ahead) && Fits(m) && |c.queue| <= MAX_SENDQUE
    ensures Carries(DoSend(c, m), ahead + [m])
  {
    SendAppends(c, m);
    match c.reader
    case AwaitHead => FramesSnoc(ahead, m);
    case AwaitBody(_, _) =>
      FramesSnoc(ahead[1..], m);
      assert (ahead + [m])[1..] == ahead[1..] + [m];
  }

  lemma WriteCarries(c: Channel, n: nat, ahead: seq<Message>)
    requires Carries(c, ahead) && Enabled(c, Write(n))
    ensures Carries(Step(c, Write(n)), ahead)
  {
    var front := c.queue[0];
    assert front[c.written..] == front[c.written..c.written + n] + front[c.written + n..];
    assert Unread(Step(c, Write(n))) == Unread(c);
  }

  lemma WriteDoneCarries(c: Channel, ahead: seq<Message>)
    requires Carries(c, ahead) && Enabled(c, WriteDone)
    ensures Carries(Step(c, WriteDone), ahead)
  {
  }

  lemma FramesHead(ms: seq<Message>)
    requires ms != [] && forall i :: 0 <= i < |ms| ==> Fits(ms[i])
    ensures |Frames(ms)| >= 4
    ensures Frames(ms)[..4] == Header(ms[0].id, |ms[0].body|)
    ensures Frames(ms)[4..] == ms[0].body + Frames(ms[1..])
    ensures AfterHead(Frames(ms)[..4]) == AwaitBody(ms[0].id, |ms[0].body|)
  {
    var m := ms[0];
    assert Fits(m);
    HeaderRoundTrip(m.id, |m.body|);
    FittingHead(m);
    ConcatAssociates(Header(m.id, |m.body|), m.body, Frames(ms[1..]));
    assert Frames(ms) == Header(m.id, |m.body|) + (m.body + Frames(ms[1..]));
  }

  lemma FittingHead(m: Message)
    requires Fits(m)
    ensures |Header(m.id, |m.body|)| == 4 && AfterHead(Header(m.id, |m.body|)) == AwaitBody(m.id, |m.body|)
  {
    HeaderReadExactly(m.id, |m.body|);
  }

  lemma ReadHeadCarries(c: Channel, ahead: seq<Message>)
    requires Carries(c, ahead) && Enabled(c, ReadHead)
    ensures Carries(Step(c, ReadHead), ahead)
  {
    assert ahead != [];
    FramesHead(ahead);
    assert c.wire[..4] == Unread(c)[..4];
    assert Unread(Step(c, ReadHead)) == Unread(c)[4..];
  }

  lemma ReadBodyCarries(c: Channel, ahead: seq<Message>)
    requires Carries(c, ahead) && Enabled(c, ReadBody)
    ensures Carries(Step(c, ReadBody), ahead[1..])
  {
    var m, d := ahead[0], Step(c, ReadBody);
    assert c.wire[..c.reader.len] == Unread(c)[..c.reader.len] == m.body;
    assert Unread(d) == Unread(c)[c.reader.len..] == Frames(ahead[1..]);
    assert ahead == [m] + ahead[1..];
  }

  lemma StepRefines(c: Channel, a: Action)
    requires Refines(c) && Enabled(c, a)
    ensures Refines(Step(c, a))
  {
    var ahead :| Carries(c, ahead);
    match a
    case Send(m) =>
      if |c.queue| <= MAX_SENDQUE {
        SendCarries(c, m, ahead);
      }
    case Write(n) => WriteCarries(c, n, ahead);
    case WriteDone => WriteDoneCarries(c, ahead);
    case ReadHead => ReadHeadCarries(c, ahead);
    case ReadBody => ReadBodyCarries(c, ahead);
    case Handle =>
      assert c.inbox == [c.inbox[0]] + c.inbox[1..];
      assert Carries(Step(c, Handle), ahead);
  }

  lemma {:induction false} RunRefines(c: Channel, acts: seq<Action>)
    requires Refines(c) && ValidRun(c, acts)
    ensures Refines(Run(c, acts))
    decreases |acts|
  {
    if acts != [] {
      StepRefines(c, acts[0]);
      RunRefines(Step(c, acts[0]), acts[1..]);
    }
  }

  /** The channel is FIFO: in every run, with the bytes split anywhere, what the peer has taken and what it still
      has queued is a prefix of what Send accepted, the reader never stops, and with nothing left in the queue,
      on the wire or half read it is all of it. */
  lemma ChannelIsFifo(acts: seq<Action>)
    requires ValidRun(IDLE, acts)
    ensures var c := Run(IDLE, acts);
            && c.handled + c.inbox <= c.accepted
            && !c.reader.Stopped?
            && (c.queue == [] && c.wire == [] && c.reader.AwaitHead? ==> c.handled + c.inbox == c.accepted)
  {
    assert Carries(IDLE, []);
    RunRefines(IDLE, acts);
    var c := Run(IDLE, acts);
    var ahead :| Carries(c, ahead);
    FramesNotEmpty(ahead);
  }

  /** The channel does not get stuck: while an accepted message is not handled, some step other than a new Send
      is possible. */
  lemma ChannelNeverStuck(acts: seq<Action>)
    requires ValidRun(IDLE, acts) && Run(IDLE, acts).handled != Run(IDLE, acts).accepted
    ensures exists a: Action :: !a.Send? && Enabled(Run(IDLE, acts), a)
  {
    ChannelIsFifo(acts);
    assert Carries(IDLE, []);
    RunRefines(IDLE, acts);
    var c := Run(IDLE, acts);
    var ahead :| Carries(c, ahead);
    if c.inbox != [] {
      assert Enabled(c, Handle);
    } else if c.queue != [] {
      if c.written == |c.queue[0]| {
        assert Enabled(c, WriteDone);
      } else {
        assert Enabled(c, Write(1));
      }
    } else if c.reader.AwaitHead? {
      assert ahead != [];
      assert Unread(c) == c.wire;
      assert Enabled(c, ReadHead);
    } else {
      assert Unread(c) == c.wire;
      assert Enabled(c, ReadBody);
    }
  }
}
