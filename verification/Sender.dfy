/** The client: streaming a file, and replaying packets the server reported lost. */
module Sender {
  import opened Streams
  import opened Packets

  datatype ClientMsg =
    | FileDataBag(seqNo: nat, data: seq<Byte>)
    | FileFinish
    | ReTransLostBagFinished

  /** A packet that SendFile reads but does not send: the full blocks numbered 0 to 19. */
  predicate Skipped(file: seq<Byte>, s: nat) {
    s <= 19 && !Short(file, s)
  }

  /** The data messages SendFile produces for packets 0..n-1. */
  function Streamed(file: seq<Byte>, n: nat): seq<ClientMsg> {
    if n == 0 then []
    else Streamed(file, n - 1) + if Skipped(file, n - 1) then [] else [FileDataBag(n - 1, Block(file, n - 1))]
  }

  /** Replaying entry `i` delivers nothing (and the base64 encoder throws): it names no packet, or an
      earlier entry was the short last packet, whose read left failbit set. */
  predicate ReplayStops(file: seq<Byte>, missing: seq<nat>, i: nat)
    requires i < |missing|
  {
    missing[i] >= TotalPackets(|file|) || exists j :: 0 <= j < i && Short(file, missing[j])
  }

  function Replayed(file: seq<Byte>, missing: seq<nat>): seq<ClientMsg> {
    seq(|missing|, i requires 0 <= i < |missing| => FileDataBag(missing[i], Block(file, missing[i])))
  }

  class FileToSend {
    const content: seq<Byte>
    const fileSize: nat
    const totalPackets: nat
    const uploadStream: InputStream
    var sent: seq<ClientMsg>

    /** RequestUpload: measure the file, count the packets, leave the stream at the start. */
    constructor RequestUpload(content: seq<Byte>)
      ensures this.content == content && fileSize == |content| && totalPackets == TotalPackets(|content|)
      ensures fresh(uploadStream) && uploadStream.content == content && uploadStream.AtStart()
      ensures sent == []
    {
      this.content := content;
      fileSize := |content|;
      var total := |content| / FILE_DATA_LEN;
      if |content| % FILE_DATA_LEN != 0 {
        total := total + 1;
      }
      totalPackets := total;
      uploadStream := new InputStream.Open(content);
      sent := [];
    }

    method SendFile()
      requires uploadStream.content == content && uploadStream.AtStart()
      requires fileSize == |content|
      modifies this, uploadStream
      ensures sent == old(sent) + Streamed(content, TotalPackets(|content|)) + [FileFinish]
    {
      var seqNo, total := 0, 0;
      var buffer := uploadStream.Read(FILE_DATA_LEN);
      while !uploadStream.failed
        invariant buffer == Block(content, seqNo)
        invariant uploadStream.failed == uploadStream.eof == Short(content, seqNo)
        invariant uploadStream.gcount == |buffer|
        invariant !uploadStream.failed ==> uploadStream.pos == Offset(seqNo + 1)
        invariant total == Offset(seqNo) <= |content|
        invariant sent == old(sent) + Streamed(content, seqNo)
        decreases !uploadStream.failed, |content| - total
      {
        total := total + uploadStream.gcount;
        if seqNo > 19 {
          sent := sent + [FileDataBag(seqNo, buffer)];
        }
        seqNo := seqNo + 1;
        buffer := uploadStream.Read(FILE_DATA_LEN);
      }
      if uploadStream.eof && total < fileSize && uploadStream.gcount > 0 {
        sent := sent + [FileDataBag(seqNo, buffer)];
        seqNo := seqNo + 1;
      }
      assert seqNo == TotalPackets(|content|);
      sent := sent + [FileFinish];
    }

    /** Seek to each reported packet, read it, send it. `ok` is false when the encoder throws on an
        empty read, which ends the handler before ReTransLostBagFinished. */
    method HandleReTransmit(missing: seq<nat>) returns (ok: bool)
      modifies this
      ensures ok <==> forall i :: 0 <= i < |missing| ==> !ReplayStops(content, missing, i)
      ensures ok ==> sent == old(sent) + Replayed(content, missing) + [ReTransLostBagFinished]
      ensures !ok ==> exists k ::
                && 0 <= k < |missing| && ReplayStops(content, missing, k)
                && (forall i :: 0 <= i < k ==> !ReplayStops(content, missing, i))
                && sent == old(sent) + Replayed(content, missing[..k])
    {
      var stream := new InputStream.Open(content);
      var k := 0;
      while k < |missing|
        invariant k <= |missing| && fresh(stream) && stream.content == content
        invariant stream.failed <==> exists j :: 0 <= j < k && Short(content, missing[j])
        invariant forall i :: 0 <= i < k ==> !ReplayStops(content, missing, i)
        invariant sent == old(sent) + Replayed(content, missing[..k])
      {
        stream.Seek(Offset(missing[k]));
        var buffer := stream.Read(FILE_DATA_LEN);
        BlockBounds(content, missing[k]);
        if buffer == [] {
          assert ReplayStops(content, missing, k);
          return false;
        }
        assert !ReplayStops(content, missing, k);
        sent := sent + [FileDataBag(missing[k], buffer)];
        assert Replayed(content, missing[..k + 1]) ==
               Replayed(content, missing[..k]) + [FileDataBag(missing[k], Block(content, missing[k]))];
        k := k + 1;
      }
      assert missing[..k] == missing;
      sent := sent + [ReTransLostBagFinished];
      return true;
    }
  }

  /** What the stream carries: each packet that is not skipped exactly once, in order, with its own bytes. */
  lemma {:induction false} StreamedExactly(file: seq<Byte>, n: nat, m: ClientMsg)
    requires n <= TotalPackets(|file|)
    ensures m in Streamed(file, n) <==>
              m.FileDataBag? && m.seqNo < n && !Skipped(file, m.seqNo) && m.data == Block(file, m.seqNo)
    ensures forall i :: 0 <= i < |Streamed(file, n)| ==>
              Streamed(file, n)[i].FileDataBag? && Streamed(file, n)[i].seqNo < n
    ensures forall i, j :: 0 <= i < j < |Streamed(file, n)| ==>
              Streamed(file, n)[i].seqNo < Streamed(file, n)[j].seqNo
  {
    if n > 0 {
      StreamedExactly(file, n - 1, m);
    }
  }

  /** The same by numbers and sizes alone: SendFile sends packet `s` of the file, with the 1024 bytes from s * 1024 on
      or what there is of them, if it is number 20 or higher, or it is the last one and is short. */
  lemma SentBySize(file: seq<Byte>, s: nat, data: seq<Byte>)
    ensures FileDataBag(s, data) in Streamed(file, TotalPackets(|file|)) <==>
              && s * 1024 < |file| && (s >= 20 || (s == |file| / 1024 && |file| % 1024 != 0))
              && data == file[s * 1024..Min((s + 1) * 1024, |file|)]
  {
    StreamedExactly(file, TotalPackets(|file|), FileDataBag(s, data));
    BlockBounds(file, s);
  }

  /** When HandleReTransmit gets through a list, by numbers and sizes alone: every entry is a packet of the file, and a
      short last packet is not followed by another entry. */
  lemma ReplaysExactly(file: seq<Byte>, missing: seq<nat>)
    ensures (forall i :: 0 <= i < |missing| ==> !ReplayStops(file, missing, i)) <==>
              && (forall i :: 0 <= i < |missing| ==> missing[i] * 1024 < |file|)
              && (|file| % 1024 != 0 ==> forall i :: 0 <= i < |missing| - 1 ==> missing[i] != |file| / 1024)
  {
    forall i | 0 <= i < |missing|
      ensures missing[i] < TotalPackets(|file|) <==> missing[i] * 1024 < |file|
      ensures missing[i] * 1024 < |file| ==>
                (Short(file, missing[i]) <==> |file| % 1024 != 0 && missing[i] == |file| / 1024)
    {
      PacketBySize(file, missing[i]);
    }
    if i :| 0 <= i < |missing| && missing[i] * 1024 >= |file| {
      assert ReplayStops(file, missing, i);
    } else if i :| 0 <= i < |missing| - 1 && |file| % 1024 != 0 && missing[i] == |file| / 1024 {
      assert Short(file, missing[i]) && ReplayStops(file, missing, i + 1);
    }
  }

  lemma PacketBySize(file: seq<Byte>, s: nat)
    ensures s < TotalPackets(|file|) <==> s * 1024 < |file|
    ensures s * 1024 < |file| ==> (Short(file, s) <==> |file| % 1024 != 0 && s == |file| / 1024)
  {
  }

  /** A strictly ascending list of packet numbers is always replayed to the end. */
  lemma AscendingListReplays(file: seq<Byte>, missing: seq<nat>)
    requires forall i, j :: 0 <= i < j < |missing| ==> missing[i] < missing[j]
    requires forall i :: 0 <= i < |missing| ==> missing[i] < TotalPackets(|file|)
    ensures forall i :: 0 <= i < |missing| ==> !ReplayStops(file, missing, i)
  {
  }
}
