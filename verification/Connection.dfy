/** CSession's handlers for sending and reading. Each handler, on an object in the state a Channel describes,
    performs that channel's step. */
module Connection {
  import opened Streams
  import opened Channel

  /** The sending half. `started` is the history of asynchronous writes begun, `finished` how many completed. */
  class SendingSession {
    var sendQue: seq<seq<Byte>>
    var started: seq<seq<Byte>>
    var finished: nat

    /** At most one write is in flight, it is the front of the queue, and there is one while the queue is not empty. */
    ghost predicate Valid()
      reads this
    {
      && finished <= |started| <= finished + 1
      && (sendQue == [] <==> finished == |started|)
      && (sendQue != [] ==> started[finished] == sendQue[0])
    }

    /** The object is the sending end of `c`; what is being written is what `c` puts on the wire. */
    ghost predicate Is(c: Channel)
      reads this
    {
      Valid() && sendQue == c.queue
    }

    constructor ()
      ensures Is(IDLE) && started == [] && finished == 0
    {
      sendQue, started, finished := [], [], 0;
    }

    /** Any id, and any body whose frame length is a positive short. */
    method Send(m: Message, ghost c: Channel)
      requires Is(c) && |m.body| < 0x8000 - 4
      modifies this
      ensures Is(DoSend(c, m))
      ensures Fits(m) ==> Is(Step(c, Action.Send(m)))
      ensures started == old(started) + if old(sendQue) == [] then [Frame(m)] else []
      ensures finished == old(finished)
    {
      var sendQueueLen := |sendQue|;
      if sendQueueLen > MAX_SENDQUE {
        return;
      }
      var node := new SendNode(m);
      sendQue := sendQue + [node.data[..node.totalLen]];
      if sendQueueLen > 0 {
        return;
      }
      started := started + [sendQue[0]];
    }

    /** HandleWrite without an error: the front has been written. */
    method HandleWrite(ghost c: Channel)
      requires Is(c) && Enabled(c, WriteDone)
      modifies this
      ensures Is(Step(c, WriteDone))
      ensures started == old(started) + if |old(sendQue)| > 1 then [old(sendQue)[1]] else []
      ensures finished == old(finished) + 1
    {
      sendQue := sendQue[1..];
      finished := finished + 1;
      if sendQue != [] {
        started := started + [sendQue[0]];
      }
    }
  }

  /** The reading half: m_Data, what the next asynchronous read is for, and all messages posted so far. */
  class ReadingSession {
    const data: array<Byte>
    var reader: Reader
    var posted: seq<Message>

    ghost predicate Valid()
      reads this
    {
      data.Length == MAX_LENGTH && (reader.AwaitBody? ==> reader.len <= MAX_LENGTH)
    }

    /** The object is the reading end of `c`: what it has posted is in the logic queue or taken from it. */
    ghost predicate Is(c: Channel)
      reads this
    {
      Valid() && reader == c.reader && posted == c.handled + c.inbox
    }

    constructor ()
      ensures Is(IDLE) && fresh(data)
    {
      data := new Byte[MAX_LENGTH](_ => 0);
      reader, posted := AwaitHead, [];
    }

    /** memset of the first four bytes of m_Data. */
    method ClearHead()
      requires data.Length == MAX_LENGTH
      modifies data
      ensures data[..] == [0, 0, 0, 0] + old(data[4..])
    {
      data[0], data[1], data[2], data[3] := 0, 0, 0, 0;
    }

    /** HandleReadHead and HandleMyProtocol, once async_read has taken four bytes off the wire into m_Data. */
    method HandleReadHead(ghost c: Channel) returns (verdict: Verdict)
      requires Is(c) && Enabled(c, ReadHead) && data[..4] == c.wire[..4]
      modifies this, data
      ensures Is(Step(c, ReadHead))
      ensures verdict == Classify(c.wire[..4])
      ensures data[..] == if verdict.Body? then [0, 0, 0, 0] + old(data[4..]) else old(data[..])
    {
      var head := data[..4];
      if head == HTTP_GET || head == HTTP_POST {
        verdict := Http;
      } else {
        var msgId := ToHost(head[0], head[1]);
        if msgId > MSGID_MAX || msgId < MSGID_MIN {
          verdict := InvalidId;
        } else {
          var msgLen := ToHost(head[2], head[3]);
          if msgLen > 4000 {
            verdict := InvalidLength;
          } else if msgLen < 0 || msgLen > MAX_LENGTH {
            verdict := Overrun;
          } else {
            verdict := Body(msgId, msgLen);
            ClearHead();
          }
        }
      }
      reader := if verdict.Body? then AwaitBody(verdict.id, verdict.len) else Stopped;
    }

    /** HandleReadMeg, once async_read has taken the body off the wire into m_Data: post it and wait for the next
        head. */
    method HandleReadMeg(ghost c: Channel)
      requires Is(c) && Enabled(c, ReadBody) && data[..c.reader.len] == c.wire[..c.reader.len]
      modifies this, data
      ensures Is(Step(c, ReadBody))
      ensures data[..] == [0, 0, 0, 0] + old(data[4..])
    {
      posted := posted + [Message(reader.id, data[..reader.len])];
      ClearHead();
      reader := AwaitHead;
      assert c.handled + (c.inbox + [Message(c.reader.id, c.wire[..c.reader.len])]) == posted;
    }
  }
}
