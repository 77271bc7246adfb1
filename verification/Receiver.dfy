/** FileToReceve and the handlers that drive it. Every method is tied to the step of Transfer it performs. */
module Receiver {
  import opened Streams
  import opened Transfer

  class FileToReceve {
    const fileHash: string
    const digest: seq<Byte> -> string
    const totalPackets: nat
    const receivedFlags: array<bool>
    const dataBuffer: array<seq<Byte>>
    var windowStart: nat
    var lastReceivedSeq: nat
    var nextExpectedSeq: nat
    var savedFile: seq<Byte>
    var flushFinished: bool
    var missingSeqs: seq<nat>
    var ableToReceiveLostBag: bool
    var finalAccepted: bool
    var startedChecks: nat
    var waitingChecks: nat
    var blockedChecks: nat
    var flusher: Flusher
    var sent: seq<ServerMsg>

    ghost predicate Valid()
      reads this, receivedFlags, dataBuffer
    {
      totalPackets == receivedFlags.Length && View().ring.Frontier()
    }

    ghost function View(): Server
      reads this, receivedFlags, dataBuffer
    {
      Server(
        Ring(receivedFlags[..], dataBuffer[..], windowStart, nextExpectedSeq, lastReceivedSeq,
             savedFile, flushFinished),
        missingSeqs, ableToReceiveLostBag, finalAccepted, startedChecks, waitingChecks, blockedChecks, sent, flusher)
    }

    /** `lastReceived` stands for the value of m_LastReceivedSeq, which the constructor leaves unset. */
    constructor (fileNum: nat, fileHash: string, digest: seq<Byte> -> string, lastReceived: nat)
      requires fileNum > 0
      ensures Valid() && fresh(receivedFlags) && fresh(dataBuffer)
      ensures totalPackets == fileNum && this.fileHash == fileHash && this.digest == digest
      ensures View() == Server(
                          Ring(seq(fileNum, _ => false), seq(WINDOW_SIZE, _ => []), 0, 0, lastReceived, [], false),
                          [], true, false, 0, 0, 0, [], Looking)
    {
      this.fileHash := fileHash;
      this.digest := digest;
      totalPackets := fileNum;
      receivedFlags := new bool[fileNum](_ => false);
      dataBuffer := new seq<Byte>[WINDOW_SIZE](_ => []);
      windowStart, lastReceivedSeq, nextExpectedSeq := 0, lastReceived, 0;
      savedFile, flushFinished, missingSeqs := [], false, [];
      ableToReceiveLostBag, finalAccepted, sent := true, false, [];
      startedChecks, waitingChecks, blockedChecks := 0, 0, 0;
      flusher := Looking;
      new;
      assert receivedFlags[..] == seq(fileNum, _ => false);
      assert dataBuffer[..] == seq(WINDOW_SIZE, _ => []);
    }

    /** Slide the window to the first packet not received. */
    method SlideWindow()
      requires receivedFlags.Length == totalPackets && windowStart <= totalPackets
      modifies this`windowStart
      ensures windowStart == FirstUnset(receivedFlags[..], old(windowStart))
    {
      while windowStart < totalPackets && receivedFlags[windowStart]
        invariant windowStart <= totalPackets
        invariant FirstUnset(receivedFlags[..], old(windowStart)) == FirstUnset(receivedFlags[..], windowStart)
        decreases totalPackets - windowStart
      {
        windowStart := windowStart + 1;
      }
    }

    method AddPacket(seqNo: nat, data: seq<Byte>) returns (accepted: bool)
      requires Valid() && (Admits(View().ring, seqNo) ==> seqNo < totalPackets)
      modifies this, receivedFlags, dataBuffer
      ensures Valid()
      ensures accepted == old(Admits(View().ring, seqNo))
      ensures View() == TakePacket(old(View()), seqNo, data)
    {
      if seqNo < windowStart || seqNo >= windowStart + WINDOW_SIZE {
        return false;
      }
      dataBuffer[seqNo % WINDOW_SIZE] := data;
      receivedFlags[seqNo] := true;
      lastReceivedSeq := seqNo;
      assert receivedFlags[..] == old(receivedFlags[..])[seqNo := true];
      SlideWindow();
      assert View().ring == Accept(old(View().ring), seqNo, data);
      if flusher.Asleep? {
        flusher := Looking;
      }
      return true;
    }

    /** One turn of the flushing thread, once its wait condition holds. */
    method FlushToDiskTurn()
      requires Valid() && nextExpectedSeq < totalPackets && receivedFlags[nextExpectedSeq]
      modifies this
      ensures Valid()
      ensures View() == FlushTurn(old(View()))
    {
      var bufferPos := nextExpectedSeq % WINDOW_SIZE;
      savedFile := savedFile + dataBuffer[bufferPos];
      nextExpectedSeq := nextExpectedSeq + 1;
      if nextExpectedSeq >= totalPackets {
        flushFinished := true;
        if blockedChecks > 0 {
          waitingChecks, blockedChecks := waitingChecks + 1, blockedChecks - 1;
        }
      }
    }

    /** The turns of FlushToDisk from one wait to the next. */
    method FlushReceived()
      requires Valid()
      modifies this
      ensures Valid()
      ensures View() == FlushedOn(old(View()), old(windowStart))
    {
      FlushedOnItself(View());
      while nextExpectedSeq < totalPackets && receivedFlags[nextExpectedSeq]
        invariant Valid() && old(nextExpectedSeq) <= nextExpectedSeq <= old(windowStart)
        invariant View() == FlushedOn(old(View()), nextExpectedSeq)
        decreases totalPackets - nextExpectedSeq
      {
        FlushedOneMore(old(View()), nextExpectedSeq + 1);
        FlushToDiskTurn();
      }
    }

    /** FlushToDisk from a wakeup on: turns are taken while the next packet is there; then the thread ends with the
        last packet, or goes to wait. */
    method FlushToDisk() returns (ended: bool)
      requires Valid() && flusher.Looking?
      modifies this
      ensures Valid()
      ensures ended == flushFinished
      ensures View() == FlushedOn(old(View()), old(windowStart)).(flusher := if ended then Looking else AboutToWait)
    {
      FlushReceived();
      ended := flushFinished;
      if !ended {
        flusher := AboutToWait;
      }
    }

    method CheckMissingPackets() returns (found: bool)
      requires Valid()
      modifies this`missingSeqs
      ensures Valid()
      ensures found == (Missing(View().ring) != [])
      ensures missingSeqs == if found then Missing(View().ring) else old(missingSeqs)
    {
      var missing := [];
      var i := windowStart;
      while i < lastReceivedSeq && i < totalPackets
        invariant windowStart <= i <= totalPackets
        invariant i > windowStart ==> i <= lastReceivedSeq
        invariant missing == Unreceived(receivedFlags[..], windowStart, i)
        decreases totalPackets - i
      {
        if !receivedFlags[i] {
          missing := missing + [i];
        }
        i := i + 1;
      }
      if missing != [] {
        missingSeqs := missing;
        return true;
      }
      return false;
    }

    method HandleData(seqNo: nat, data: seq<Byte>)
      requires Valid() && (Admits(View().ring, seqNo) ==> seqNo < totalPackets)
      modifies this, receivedFlags, dataBuffer
      ensures Valid()
      ensures View() == Transfer.HandleData(old(View()), seqNo, data)
    {
      var _ := AddPacket(seqNo, data);
      if ableToReceiveLostBag && seqNo % CHECK_LOST_PER_BAGS == 0 {
        var found := CheckMissingPackets();
        if found {
          sent := sent + [TellLostBag(missingSeqs)];
          ableToReceiveLostBag := false;
        }
      }
    }

    /** FinalCheck, in a thread of its own, up to its wait for the flush; `waits` tells whether it got there. */
    method FinalCheck() returns (waits: bool)
      requires Valid() && startedChecks > 0
      modifies this
      ensures Valid()
      ensures waits == (Missing(old(View().ring)) == [])
      ensures View() == StartFinalCheck(old(View()))
    {
      startedChecks := startedChecks - 1;
      var found := CheckMissingPackets();
      if found {
        sent := sent + [TellLostBag(missingSeqs)];
        return false;
      }
      waitingChecks := waitingChecks + 1;
      return true;
    }

    /** The wait for the flush: a check that comes before the end of it blocks. */
    method FinalCheckWait() returns (blocks: bool)
      requires Valid() && waitingChecks > 0
      modifies this
      ensures Valid()
      ensures blocks == !flushFinished
      ensures View() == if blocks then BlockCheck(old(View())) else old(View())
    {
      blocks := !flushFinished;
      if blocks {
        waitingChecks, blockedChecks := waitingChecks - 1, blockedChecks + 1;
      }
    }

    /** FinalCheck after its wait: the saved file is hashed and the client told the outcome. */
    method FinalCheckResumed() returns (complete: bool)
      requires Valid() && waitingChecks > 0 && flushFinished
      modifies this
      ensures Valid()
      ensures complete == (digest(old(savedFile)) == fileHash)
      ensures View() == EndFinalCheck(old(View()), complete)
    {
      complete := digest(savedFile) == fileHash;
      waitingChecks := waitingChecks - 1;
      sent := sent + [if complete then FileComplete else RequestVerify];
    }

    method ServerHandleFinalBag()
      requires Valid()
      modifies this
      ensures Valid()
      ensures View() == HandleFinish(old(View()))
    {
      sent := sent + [ServerRecevFinal];
      finalAccepted := true;
      startedChecks := startedChecks + 1;
    }

    method ReCheckFile()
      requires Valid()
      modifies this
      ensures Valid()
      ensures View() == Transfer.ReCheckFile(old(View()))
    {
      ableToReceiveLostBag := true;
      if finalAccepted {
        startedChecks := startedChecks + 1;
      }
    }
  }
}
