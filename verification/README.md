# Verification of the upload server

A Dafny 4.11 model of a Boost.Asio file-upload server and client, with proofs. `dafny verify dfyconfig.toml`
checks the whole project.

A client cuts a file into 1024-byte numbered packets and streams them over a framed message channel. The server
stores packets in a ring of 1024 slots, marks them in a bitmap, and slides a receive frontier; a second thread
flushes packets to disk behind a frontier of its own, and sleeps on a condition variable in between. Gaps are
found by a check, asked for with `TellLostBag`, replayed by the client, and checked again; when everything is
flushed the digest decides between `FileComplete` and `RequestVerify`.

Classes carry the fields of the source's classes. The receiving file, the two halves of a session, the logic queue
and the id and upload tables are proved, method by method, to perform the steps of a transition system over values,
and the theorems are about all runs of those systems; the sender and the repair classes are proved against functions
of the file.

| file | contents |
|---|---|
| `Streams.dfy`, `Packets.dfy` | `std::ifstream` reads and seeks; how a file is cut into packets |
| `Sender.dfy` | `FileToSend`: streaming, replaying lost packets |
| `Transfer.dfy`, `Receiver.dfy` | the server's state for one upload and its steps; `FileToReceve` |
| `Runs.dfy` | every interleaving of packets, flusher, checks and their sleeping and waking; the frontiers in every run |
| `Integrity.dfy` | what ends up on disk, and exactly when it is the source file |
| `Recovery.dfy`, `Completion.dfy` | replay rounds, truthful outcomes, exactly which uploads can still complete |
| `Upload.dfy`, `Termination.dfy`, `Outcome.dfy`, `Verdict.dfy` | client and server together over a lossless ordered connection: every run ends, and exactly which runs get to `FileComplete` |
| `Opening.dfy` | how the real client gets a file received packet by packet |
| `Stages.dfy` | what an upload of at most 100 packets goes through when the client's timer does not expire |
| `Resending.dfy` | the same uploads when it does, and `FileFinish` is sent twice |
| `Aftermath.dfy` | messages that come after `FileComplete`: exactly when the server never crashes and never completes twice |
| `Overrun.dfy`, `Truncation.dfy` | overwriting with the real client; exactly when `FileComplete` can be sent over a wrong file |
| `Asking.dfy` | at which packets the server asks for lost ones, for what, and when again |
| `Requests.dfy` | what is asked for in uploads that fit into the first window |
| `Channel.dfy`, `Connection.dfy` | frames, send queue, reader: a FIFO channel |
| `Worker.dfy` | the logic queue and its condition variable |
| `Registry.dfy` | file ids and the two-level table of uploads |
| `Url.dfy`, `Query.dfy` | the URL codec and the request-target parser |
| `Repair.dfy`, `Hash.dfy`, `ServicePool.dfy` | block codes and positional repair, file digests, round robin |

## Main results

- **The verdict on uploads** (`Verdict.UploadCompletesExactly`). Over a connection that loses nothing, and whether or
  not the client's 20 s timer expires and sends `FileFinish` again, no file is safe from a schedule that comes to rest
  without `FileComplete`: `AddPacket` sets a packet's flag and notifies without the mutex under which the flusher
  looks at the flag, so a notification between look and wait is lost, and if no packet is accepted afterwards the
  flusher sleeps forever. This is the only reason if and only if the file has at most 1024 packets and the check after
  `FileFinish` can see the last packet: a schedule at rest has then completed exactly when the packet accepted last
  did not find the flusher between look and wait. With the flag set under that mutex, every schedule of exactly these
  uploads completes. In all other cases some schedule comes to rest without completing even then: `SendFile` drops the
  full packets 0 to 19, the tail of a longer file is refused by the window, and no check looks beyond the last
  accepted packet. The check sees the last packet when the file is longer than 20 KiB or ends with a short packet, or
  when the uninitialised `m_LastReceivedSeq` happens to be past the end (`Outcome.ReliableBySize`). No run goes on
  forever without spurious wakeups and expiries of the timer (`Termination.EveryRunEnds`), and at rest the timer is
  stopped (`Verdict.RestIsSilent`).
- **After completion** (`Aftermath.LateMessagesExactly`, `Aftermath.EndsCleanlyExactly`). Completing removes the
  upload, and the handlers do not test the null pointer they then find; in the model this is a crash. For every file:
  no schedule crashes the server, and none completes the upload twice, if and only if the file has at most 100 packets
  and, unless the upload cannot complete at all, the timer does not expire before the acknowledgement of `FileFinish`
  is handled. From packet 100 on a request can be open while `FileFinish` is handled and the upload completes; and a
  second `FileFinish` starts a second check. A missed packet is the only way not to end with one `FileComplete`, the
  server alive and nothing left over if and only if the upload is one of those above, has at most 100 packets and its
  timer does not expire; under the mutex every schedule of exactly these ends so. What a second completion does to the
  tables is `Registry.SecondCompletionLeaks` and `Registry.LeakGivenBack`.
- **Integrity** (`Integrity.IntegrityWithinLag`, `Integrity.IntegrityExactly`, `Overrun.SavesWrongExactly`). If
  admitted packets stay less than 1024 ahead of the flush frontier the disk is always a prefix of the source. The code
  checks admission against the receive frontier instead; with that check alone every run is right if and only if
  packets 1024 apart carry the same bytes, which holds for every file of at most 1024 packets. The condition is the
  same for arbitrary deliveries and for the real client over the lossless connection.
- **Undetected damage** (`Truncation.EscapesExactly`, `Truncation.WrongCompleteIsShort`). Even with a hash without
  collisions `FinalCheck` can send `FileComplete` over a wrong file of n bytes if and only if n is at least 10 MiB,
  the last packet is short, and the last partial MiB is at least as long as what the last packet lacks; the saved file
  is then shorter than the source. Damage of the right length is always seen. A file whose last packet has been
  written in the place of the one 1024 before passes if and only if its whole MiB are the same after moving up by what
  that packet lacks (`Truncation.OverwrittenPassesExactly`), and every such file can get there with the real client.
  This is about `FinalCheck`; what the hash phase can leave is `Repair.BlockRepairExactly`, and what its digest sees
  `Hash.LargeDigestSeesExactly`.
- **Recovery** (`Recovery.ReplayClosesGaps`, `Recovery.OneRoundSuffices`, `Recovery.ReplayLeadsToCompletion`,
  `Completion.CompletionExactly`, `Completion.RequestCompletesExactly`). A replay round closes every reported gap
  under any interleaving. A client that has finished streaming sends data only when asked, `FileFinish` once, and one
  replay-done for each request. Spurious wakeups apart, an intact upload with no request open can then complete if and
  only if nothing above the last accepted packet is missing, it is not stranded with everything received and the
  flusher not awake, and `FileFinish` is still to come, or a check has been started and has not looked yet, or
  everything is received and a check is under way; with a request for all gaps just made after `FileFinish`, if and
  only if nothing above the last accepted packet is missing.
- **Requests** (`Asking.AsksExactly`, `Asking.UnableMeansOpen`, `Asking.SecondRequest`, `Requests.RequestsAreSmall`).
  A data message causes a request if and only if its number is a multiple of 100, no request has been made by one
  since the last replay-done, and then a packet below the last accepted one is missing; the request lists exactly
  those. While there may be no request, the replay-done of an open one is to come. The real client gets a second
  request, for exactly the packets the window refused, out of every file of more than 1100 packets. Up to 1024 packets
  every request asks for dropped packets only, at most twenty, so none comes near the channel's 2048-byte body.
- **Truthful answers** (`Recovery.CompleteOnlyWhenVerified`, `Recovery.OutcomeIsTruthful`,
  `Hash.LargeDigestSeesExactly`). `FileComplete` is sent only over a completely flushed file with the declared
  digest. The digest of a file of 10 MiB or more ignores its last partial MiB.
- **The stop signal** (`Worker.StopLostExactly`, `Worker.StopUnderMutexIsKept`). No message wakeup is lost
  (`Worker.NoLostWakeup`). The stop signal can be lost if and only if `m_stop` is set while the worker is between its
  look at the flag and its wait; setting it under the mutex rules that out.
- **Ids** (`Registry.LeakedExactly`, `Registry.FormedInEveryRun`, `Registry.AtomicRunsAgree`). However many checks
  complete an upload: an id is taken without an upload if and only if at some step its entry was removed while it was
  taken, or the receiver it was given to could not be constructed, and no check has freed it since; until one does it
  is given to nobody. A request collides if and only if a check has freed the id of an entry and neither has been
  touched since. If each upload is completed once, as `Aftermath.LateMessagesExactly` says when, an id is lost if and
  only if a request collided on it before its entry went or its receiver could not be constructed, and then forever
  (`Registry.LeakedOnceExactly`, `Registry.LeakIsForever`). If freeing an id and removing its entry happen together no
  request collides, and if besides every receiver can open its file, ids and entries always agree.
- **Positional repair** (`Repair.BlockRepairExactly`). For a saved file of any length and an ascending block list the
  rewritten file is the source if and only if the saved one was not too long, it had the right length or the last
  block is listed, and every packet that differs, zeros standing for what is missing, lies in a listed block.
- **FIFO channel** (`Channel.ChannelIsFifo`), **query round trip** (`Query.QueryRoundTrip`), **canonical URLs**
  (`Url.ReencodesExactly`).

Assumptions about the environment: packet messages fit the channel's 2048-byte body; base64 decoding inverts
encoding, which throws on empty input; a file keeps its contents during an upload; no other upload saves under the same
file name meanwhile, which would truncate and write the same path (`file.cpp:43-51`); the digest is a function of the
saved bytes.

Where comments and code differ the model follows the code: `file.cpp:527` speaks of dropping one packet while
`file.cpp:528` drops the full packets 0 to 19; `file.cpp:149` describes a check from the confirmed packets up to
the window start while `file.cpp:151` runs from the window start to the last accepted packet.

## Model

| member | source | states |
|---|---|---|
| Packets.TotalPacketsIsCeiling | logicsystem.cpp:531-535 | the announced packet count is the rounded-up quotient: all packets are needed and together they cover the file |
| Packets.BlocksConcatenate | file.cpp:499-573 | the packets of a file, in order, concatenate to the file |
| Packets.BlockBounds | file.cpp:544-566 | every packet is non-empty, and only the last one can be shorter than 1024 bytes |
| Sender.FileToSend.RequestUpload | logicsystem.cpp:519-548 | the sender starts with the measured size, the rounded-up packet count and its stream at the start |
| Sender.FileToSend.SendFile | file.cpp:499-585 | for every file the loop and the tail send the streamed packets followed by FileFinish |
| Sender.StreamedExactly | file.cpp:505-569 | what is streamed is each packet outside the dropped full packets 0-19, once, ascending, with its own bytes |
| Sender.SentBySize | file.cpp:505-569 | by numbers and sizes alone: packet s is sent, with its up to 1024 bytes from s * 1024 on, if and only if it lies in the file and s is at least 20, or it is the last packet and is short |
| Sender.FileToSend.HandleReTransmit | logicsystem.cpp:1007-1089 | each listed packet is replayed with the bytes found by seeking, then replay-done is sent; the handler throws exactly at the first entry behind the file or after a short read |
| Sender.ReplaysExactly | logicsystem.cpp:1030-1053 | by numbers and sizes alone: a list is replayed to the end if and only if every entry is a packet of the file and a short last packet is followed by no other entry |
| Sender.AscendingListReplays | logicsystem.cpp:1030-1053 | an ascending list is always replayed to the end: a short read can only be the last one |
| Receiver.FileToReceve.constructor | file.cpp:15-64 | a new upload: nothing received, nothing flushed, last received number arbitrary |
| Receiver.FileToReceve.SlideWindow | file.cpp:257-263 | the window start moves to the first packet not received |
| Receiver.FileToReceve.AddPacket | filemanagement.cpp:38-62 | a packet is accepted exactly when it lies in the 1024 numbers from the window start; slot, flag, last number and window change, and a sleeping flusher is woken, nothing else |
| Receiver.FileToReceve.FlushToDiskTurn | file.cpp:106-138 | one turn appends the slot of the next packet and advances the flush frontier; at the packet count the flush is finished and one blocked check is notified |
| Receiver.FileToReceve.FlushToDisk | file.cpp:101-144 | from a wakeup on the thread writes every packet up to the receive frontier, in order, and then ends or is about to wait |
| Receiver.FileToReceve.FinalCheckWait | file.cpp:191-195 | a check that comes before the end of the flush blocks, a later one goes on |
| Receiver.FileToReceve.CheckMissingPackets | file.cpp:147-166 | reports whether there is a gap and stores the gap list only if there is one |
| Receiver.FileToReceve.HandleData | logicsystem.cpp:692-732 | a data message is added, and at every hundredth number gaps are asked for unless a request is open |
| Asking.DataStepExactly | logicsystem.cpp:692-732 | by numbers alone, in every state: packet s is accepted if it is one of the 1024 from the first unreceived one on, and whether or not it is, a request is sent if and only if there may be one, s is a multiple of 100 and a packet below the last accepted one is missing; it lists exactly those, in order, and closes further ones |
| Asking.AsksExactly | logicsystem.cpp:715-729 | the same in every run from the start of an upload |
| Receiver.FileToReceve.FinalCheck | file.cpp:168-195 | the check, in a thread of its own, either asks for the gaps or waits for the flush |
| Receiver.FileToReceve.FinalCheckResumed | file.cpp:197-229 | after the flush FileComplete or RequestVerify is sent according to the digest of the saved file |
| Receiver.FileToReceve.ServerHandleFinalBag | logicsystem.cpp:737-761 | FileFinish is acknowledged and recorded, and a check is started |
| Receiver.FileToReceve.ReCheckFile | logicsystem.cpp:1093-1113 | replay-done allows new requests and, after FileFinish, starts a check |
| Asking.PermissionIsHistory | logicsystem.cpp:1103-1104 | in every run there may be a request exactly if no data message has caused one since the last replay-done |
| Asking.AsksAgain | logicsystem.cpp:1103-1104 | after replay-done, whatever happens in between, the next data message with a number divisible by 100 that leaves a gap causes a request |
| Asking.UnableMeansOpen | logicsystem.cpp:715-729 | in every state of an upload in which data messages may cause no request one is open, and its replay-done is on its way or will be sent |
| Asking.SecondRequest | logicsystem.cpp:715-729 | for every multiple of 100 between 1024 and 2048, of a file of more than that many packets the real client can get packets 0 to 19 asked for first, and at that packet exactly those from 1024 on that the window refused |
| Transfer.UnreceivedExactly | file.cpp:150-159 | a gap list holds exactly the unreceived numbers of its range, strictly ascending |
| Transfer.GapReportedExactly | file.cpp:147-166 | a check reports a gap exactly when the window start is below the last accepted packet, and lists exactly the unreceived numbers between them |
| Transfer.AcceptKeepsFrontier | filemanagement.cpp:46-58 | accepting keeps the window start the least unreceived number, never moves it back, and moves it exactly when that number arrives |
| Transfer.FlushKeepsFrontier | file.cpp:117-138 | a flusher turn keeps the flush frontier at or below the receive frontier |
| Runs.InEveryRun | file.cpp:257-263 | from the start of every upload, whatever the packets carry: flush frontier <= receive frontier <= count, the receive frontier is the least unreceived packet, the flush is finished exactly at the count, and the stored gap list is that of the latest request |
| Runs.FrontiersInEveryRun | file.cpp:257-263 | in every run the order of the frontiers is kept, and frontiers, flags, written bytes and sent messages only grow |
| Runs.FlusherCatchesUp | file.cpp:101-144 | left alone a flusher that is awake can reach any packet below the receive frontier, writing exactly the slots in order |
| Runs.WritesExactly | file.cpp:106-109 | without another accepted packet and without spurious wakeups received packets get written if and only if the flusher is awake |
| Runs.SleeperStays | filemanagement.cpp:54-60 | a flusher that is not awake stays so, and the ring as it is, until a packet is accepted |
| Runs.OneIsWoken | file.cpp:134-138 | the end of the flush wakes one blocked check, and without spurious wakeups all others stay blocked forever |
| Runs.MissingSeqsIsLatestRequest | file.cpp:161-164 | the stored gap list is always the list of the latest request sent |
| Integrity.SlotsDistinct | filemanagement.cpp:51-55 | numbers within a window of 1024 never share a slot |
| Integrity.AcceptKeepsFaithful | filemanagement.cpp:54-58 | storing a packet keeps disk and pending slots right if every pending packet it shares a slot with has the same bytes |
| Integrity.AcceptIntactExactly | filemanagement.cpp:46-58 | beyond the lag the ring stays intact exactly when the unflushed packet overwritten has the same bytes |
| Integrity.FlushKeepsFaithful | file.cpp:117-121 | a flusher turn extends an exact disk prefix by exactly the next packet |
| Integrity.IntegrityWithinLag | file.cpp:101-144 | in every run of an upload within the lag, and in every run at all up to 1024 packets, with any loss, reordering and duplication, the disk is the first flushed packets of the source, and the source once the flush is finished |
| Integrity.LaggedRunFaithful | filemanagement.cpp:38-62 | the same from any state, with every received unflushed packet intact in its slot and below the flush frontier plus 1024 |
| Integrity.SmallFileAlwaysLagged | filemanagement.cpp:47-49 | up to 1024 packets every run is within the lag |
| Integrity.PeriodicRunFaithful | filemanagement.cpp:46-58 | if packets 1024 apart are equal every run keeps the disk right without any lag condition |
| Integrity.OverrunSpoilsDisk | filemanagement.cpp:46-58 | the failing run, in which packets arrive in order and none is lost: the receive frontier gets 1024 ahead of the flusher and packet s is written with the bytes of packet s + 1024 |
| Integrity.OverrunSpoilsFile | filemanagement.cpp:46-58 | the failing run carried to the end: everything received and flushed, and the saved file is the source with that one packet replaced |
| Integrity.OverwrittenDiffers | filemanagement.cpp:54-55 | such a file is the source exactly when the two packets are equal, and is shorter by what the replacing packet lacks |
| Integrity.IntegrityExactly | filemanagement.cpp:46-58 | all runs keep the disk right, and all finished runs save the source, if and only if packets 1024 apart are equal; files of at most 1024 packets are such files |
| Recovery.LastKnownFromFirstAcceptance | filemanagement.cpp:57 | from the first acceptance on the last accepted packet is received and below the window's upper end |
| Recovery.DeliveredIsReceived | filemanagement.cpp:46-58 | a packet below the window's upper end is received once delivered, whatever else happens |
| Recovery.ReplayClosesGaps | logicsystem.cpp:1030-1054 | after a replay of the reported gaps under any interleaving the window start exceeds the old last accepted packet, and at least as many packets as were asked for have become received |
| Recovery.OneRoundSuffices | logicsystem.cpp:1007-1113 | if the last packet of the file was the last accepted, one round leaves nothing missing |
| Recovery.AllReceivedOnlyFlushes | file.cpp:101-144 | once everything is received nothing is asked again, each flusher turn advances by one, and until the end a turn is possible exactly if the flusher was awake |
| Recovery.StrandedForever | file.cpp:106-109 | with everything received but not flushed and the flusher not awake nothing is written or completed any more, spurious wakeups apart |
| Recovery.ReplayLeadsToCompletion | logicsystem.cpp:1093-1113 | after any honest replay within the lag, replay-done, the look of the check it starts, the remaining flusher turns and one wakeup send FileComplete over a saved file equal to the source, unless the replay leaves the upload stranded, and then nothing does |
| Recovery.CompleteOnlyWhenVerified | file.cpp:191-219 | in every run, whatever the packets carry, FileComplete implies everything received, everything flushed and the declared digest |
| Recovery.OutcomeIsTruthful | file.cpp:203-228 | within the lag RequestVerify is never sent, and FileComplete means the saved file is the source |
| Completion.StalledForever | file.cpp:151-165 | a missing packet above the last accepted one and above all requests is never received |
| Completion.QuietForever | logicsystem.cpp:1093-1113 | with FileFinish handled, no check still to look and no request open nothing but flushing and waking checks can happen |
| Completion.CompleteByOneRound | logicsystem.cpp:737-761 | with nothing missing above the last accepted packet and the upload not stranded the one FileFinish, its check, and if that asks one round of replay and replay-done, complete the upload |
| Completion.CompletionExactly | file.cpp:168-235 | spurious wakeups apart, and with no request open, an intact upload whose client only answers can complete if and only if nothing above the last accepted packet is missing, it is not stranded, and FileFinish is still to come, or a check has been started and has not looked yet, or one is under way with everything received |
| Completion.RequestCompletesExactly | logicsystem.cpp:1007-1113 | spurious wakeups apart, with a request for all gaps just made after FileFinish, it can complete if and only if nothing above the last accepted packet is missing |
| Upload.MoveKeepsSane | logicsystem.cpp:692-732 | every request ever sent is non-empty, ascending and inside the file, every replay-done message follows the first packet of its request, and all packets under way carry their own bytes |
| Upload.RequestsAreReplayed | logicsystem.cpp:1030-1053 | no request of a reachable state makes HandleReTransmit throw |
| Termination.EveryMoveShrinks | logicsystem.cpp:715-731 | every move of client or server but a spurious wakeup and the expiry of the timer makes a lexicographic measure of open requests, started checks and remaining work smaller |
| Termination.EveryRunEnds | logicsystem.cpp:1007-1113 | no infinite sequence of states is a run of the upload without spurious wakeups and expiries of the timer |
| Termination.ComesToRest | logicsystem.cpp:1007-1113 | from every reachable state some run comes to rest |
| Upload.MoveNoted | filemanagement.cpp:54-60 | a missed packet leaves the flusher not awake and the flush unfinished; without one a flusher that is not awake has nothing to write; under the mutex nothing is missed |
| Outcome.SomeMove | logicsystem.cpp:737-761 | in the reliable case some move other than a spurious wakeup or an expiry is possible until FileComplete is sent or everything is received with the flusher asleep |
| Outcome.ReliableBySize | file.cpp:527-562 | the reliable uploads by sizes alone: at most 1 MiB, and longer than 20 KiB, or ending with a short packet, or with the unset last number behind the file |
| Outcome.FirstRequestCovers | logicsystem.cpp:715-729 | the first request asks for everything SendFile dropped |
| Outcome.FinishSeesAll | file.cpp:168-189 | if nothing was asked before it looks, the check after FileFinish lists every missing packet |
| Outcome.MoveOnward | logicsystem.cpp:692-761 | every move, that of the timer included, keeps every missing packet, FileFinish and the final check owed by somebody |
| Verdict.DoomedForever | file.cpp:151-165 | a missing packet above everything received last, sent and asked for keeps the upload from ever completing |
| Verdict.LargeFileCanBeDoomed | file.cpp:527-542 | a file of more than 1024 packets streamed ahead of the server loses its tail for good |
| Verdict.BeginsDoomed | file.cpp:151-154 | a file of dropped packets only is lost from the start when the unset last number lies inside it |
| Verdict.EveryFileCanBeStranded | filemanagement.cpp:56-60 | for every file some schedule comes to rest without FileComplete, every notification having found the flusher between look and wait |
| Verdict.ReliableCompletes | file.cpp:168-219 | in the reliable case a state at rest has sent FileComplete if and only if the packet accepted last was not missed, and FileComplete means a saved file equal to the source |
| Verdict.UnreliableCanFail | file.cpp:527-542 | in all other cases some schedule under the mutex comes to rest without completing |
| Verdict.RestIsSilent | file.cpp:472-497 | at rest, in whatever state, the timer is stopped and nothing but a spurious wakeup can happen |
| Verdict.UploadCompletesExactly | filemanagement.cpp:38-62 | whether or not the timer resends FileFinish: without the mutex no file completes in every schedule; a missed packet is the only reason if and only if the file has at most 1024 packets and the first final check can see its last packet; under the mutex exactly these always complete |
| Stages.MoveStaysTidy | logicsystem.cpp:715-761 | up to 100 packets and without the timer a reliable upload goes through streaming, the look of the first check, at most one request, its replay, and one check to the end, and every move keeps to these stages |
| Stages.SmallFileIsClean | filemanagement.cpp:64-83 | up to 100 packets, if the timer does not expire or the upload cannot complete, no message reaches the server after completion and FileComplete is sent at most once; at rest a reliable upload has ended as intended if and only if the packet accepted last was not missed |
| Resending.FinishedTwice | file.cpp:472-489 | of every reliable upload of at most 100 packets the timer can get FileFinish handled twice, with neither check looking yet |
| Resending.SecondLooksLate | file.cpp:168-195 | if something is missing then, one check can ask and the other look after the replay, so that everything is checked with replay-done still to come |
| Resending.BothWait | file.cpp:191-195 | if nothing is missing, both checks can wait for the flush with the acknowledgement not handled |
| Resending.LateFinishCrashes | file.cpp:476-487 | from there the timer can send FileFinish to the server that has removed the upload, and the handler uses the null pointer |
| Aftermath.ReplayDoneOutstanding | logicsystem.cpp:715-731 | from 101 packets on everything can be received, flushed and checked while the request packet 100 caused is still open |
| Aftermath.LateReplayCrashes | logicsystem.cpp:1103-1104 | from there replay-done meets the removed upload, and the handler uses the null pointer |
| Aftermath.SecondCheckCompletesToo | logicsystem.cpp:1104-1111 | from there replay-done can start a second check, and FileComplete is sent twice |
| Aftermath.LateMessagesExactly | filemanagement.cpp:38-62 | for every file the server never crashes, and never completes twice, if and only if the file has at most 100 packets and the timer does not expire or the upload is not a reliable one |
| Aftermath.EndsCleanlyExactly | file.cpp:209-221 | without the mutex no file ends as intended in every schedule; a missed packet is the only reason if and only if the upload is reliable, has at most 100 packets and the timer does not expire; under the mutex exactly these always end with one FileComplete, the server alive and nothing left over |
| Opening.FirstPacketsCaught | file.cpp:527-542 | of a file of more than 100 packets the real client can get packets 0 to 100 received, by one request and its replay, before anything is flushed |
| Opening.Mimic | file.cpp:527-585 | every run of the server in which packets arrive in order is a run with the real client, from any state in which the client streams the next packet |
| Overrun.SavesWrongExactly | filemanagement.cpp:46-58 | with the real client over the lossless connection a wrong file can be finished, and RequestVerify answered if the digest accepts the source alone, if and only if some packet differs from the one 1024 further on |
| Truncation.StepTraced | filemanagement.cpp:46-58 | whatever is lost or reordered, the last 1024 packets are never overwritten, and the disk has the right length unless the short last packet was written in the place of a full one |
| Truncation.WrongCompleteIsShort | hashmd5.cpp:8-75 | in every run, with a hash without collisions, FinalCheck's FileComplete over a wrong file means a size of the escaping kind and a saved file shorter than the source |
| Truncation.OverwrittenPassesExactly | hashmd5.cpp:50-106 | the file with its short last packet in the place of the packet 1024 before passes the digest comparison if and only if its size is of the escaping kind and every byte of its whole MiB equals the one that is saved there |
| Truncation.ShiftedEscapes | filemanagement.cpp:46-58 | for each such file the real client can get FileComplete over exactly that wrong file |
| Truncation.EscapesExactly | hashmd5.cpp:8-75 | for some file of n bytes the real client can get FinalCheck's FileComplete over a wrong file if and only if n is at least 10 MiB, its last packet is short, and its last partial MiB is at least as long as what that packet lacks |
| Requests.MoveModest | logicsystem.cpp:715-761 | up to 1024 packets every move keeps what is missing below the last accepted packet, and everything asked for and replayed, to packets SendFile dropped |
| Requests.RequestsAreSmall | file.cpp:147-166 | up to 1024 packets every request asks for full packets numbered below 20 only, so at most twenty |
| Channel.HeaderRoundTrip | msgnode.cpp:34-44 | the four header bytes give back id and length for all 16-bit values |
| Channel.HeaderReadExactly | csession.cpp:149-231 | what any four header bytes are taken for: HTTP exactly for the two id-length pairs spelling the method names, otherwise an invalid id outside 1001-3002, an invalid length above 4000, an overrun below 0 or above 2048, or a body of this id and length |
| Channel.ReadHeadExactly | csession.cpp:186-231 | the four bytes are consumed; exactly ids 1001-3002 with lengths 0-2048 go on with the body, anything else ends the reading |
| Channel.StoppedForever | csession.cpp:198-226 | and then nothing is posted any more |
| Channel.SendNode.constructor | msgnode.cpp:34-44 | the node's buffer is header and body at their offsets, closed by a zero byte |
| Channel.SendAcceptsExactly | csession.cpp:439-450 | Send accepts every message of the channel while at most 500000 are queued and none beyond, as two bytes each of id and length, high byte first, and the body |
| Channel.StepRefines | csession.cpp:399-515 | every step keeps the accepted messages split into handled, queued, and those the bytes in queue and on the wire spell out |
| Channel.ChannelIsFifo | csession.cpp:399-515 | in every run what the peer has dispatched or queued is a prefix of what Send accepted, the reader never stops, and nothing is missing when nothing is under way |
| Channel.ChannelNeverStuck | csession.cpp:399-515 | while an accepted message is unhandled some step other than Send is possible |
| Connection.SendingSession.Send | csession.cpp:439-466 | a message is queued as its frame unless the queue is over its limit, and a write is started exactly when the queue was empty; for the channel's messages this is the channel's Send step |
| Connection.SendingSession.HandleWrite | csession.cpp:496-515 | the written front is removed and the next one started, which is the channel's step for a finished write |
| Connection.ReadingSession.HandleReadHead | csession.cpp:121-231 | the four bytes at the front of the wire are classified as HTTP, invalid, or the start of a body, which is the channel's step for a head |
| Connection.ReadingSession.HandleReadMeg | csession.cpp:399-430 | the body at the front of the wire is posted with its id, the head bytes are cleared and the reader waits for the next head, which is the channel's step for a body |
| Worker.LogicSystem.PostMesgToQue | logicsystem.cpp:38-48 | the node is appended, and a notification is owed exactly when the queue was empty: the pool's Post step |
| Worker.LogicSystem.HandleFront | logicsystem.cpp:108-142 | the front is removed, and called if it is a client's and registered in the client's table or a server's and registered in the server's |
| Worker.LogicSystem.CallsExactly | logicsystem.cpp:66-142 | over any nodes handled, in runs or on stop, the calls are exactly the nodes registered in the table of their role, in the order they were handled |
| Worker.LogicSystem.CallsCount | logicsystem.cpp:66-142 | each of them is called as often as it was handled, and no other |
| Worker.LogicSystem.DealOne | logicsystem.cpp:108-142 | one turn of a running worker is the pool's step for handling the front |
| Worker.LogicSystem.DrainOnStop | logicsystem.cpp:60-106 | the stop branch handles everything queued, in order: the pool's draining steps |
| Worker.NoLostWakeup | logicsystem.cpp:38-58 | in every run handled and queued messages are the posted ones in order, and a worker sleeping on a non-empty queue is owed a notification that wakes it |
| Worker.QueuedMessageProgress | logicsystem.cpp:50-142 | with a message queued some step of the pool itself handles the front or brings the worker nearer to it |
| Worker.ExitDrained | logicsystem.cpp:60-106 | when the worker exits everything posted so far is handled |
| Worker.StopSeen | logicsystem.cpp:60-106 | a worker that looks and is told to stop keeps the mutex until everything posted is handled and it exits |
| Worker.MutexComesFree | logicsystem.cpp:50-58 | otherwise at most two of its own steps, and one message, later it can be posted to |
| Worker.StopLostExactly | logicsystem.cpp:31-36 | setting m_stop without the mutex can be lost, with the worker asleep and nobody owing it a wakeup, if and only if the worker is then between its look at the flag and its wait |
| Worker.StopUnderMutexIsKept | logicsystem.cpp:50-58 | set under the mutex the stop signal is never lost, whatever is posted and notified |
| Worker.StopCanBeLost | logicsystem.cpp:31-36 | the losing position is reachable from a fresh pool |
| Registry.FileIds.GetFileId | csession.cpp:71-84 | the lowest free id is taken, or -1 returned and nothing changed |
| Registry.FileManagement.AddFile | filemanagement.cpp:8-24 | an entry is added exactly when its id is not in use in the session |
| Registry.FileManagement.FindFile | filemanagement.cpp:64-83 | the entry of the session and id, if any |
| Registry.FileManagement.RemoveFile | filemanagement.cpp:85-109 | the entry is removed, and the session's table with its last entry |
| Registry.HandleUploadRequest | logicsystem.cpp:589-627 | a request takes the lowest id and adds an entry, or is rejected without an id, on a collision, or because the receiver cannot open its file, as the Upload and UploadFails steps say |
| Registry.FinishUpload | file.cpp:214-215 | completing frees the id and removes the entry, if there is one |
| Registry.CompletedInTwoSteps | file.cpp:214-215 | with nothing in between this is the FreeId step followed by the RemoveEntry step |
| Registry.SecondCompletionExactly | file.cpp:214-215 | in whatever state, a completion with nothing in between changes nothing exactly when the id is free and has no entry; otherwise it takes id and entry away from whoever has them, and nothing else |
| Registry.WithoutLookup | filemanagement.cpp:100-106 | removing an entry removes that entry only |
| Registry.AtMostFive | csession.cpp:76-82 | a session has at most five uploads in progress |
| Registry.FiveUploads | csession.cpp:71-84 | five can be, with the ids 0 to 4, and a sixth request changes nothing |
| Registry.StepExactly | logicsystem.cpp:589-627 | what each step does to an id: exactly which steps lose it and give it back, and exactly which expose an entry to collisions and end that |
| Registry.CollidesExactly | filemanagement.cpp:17-21 | a request collides exactly when the id it is given is free although an upload has it |
| Registry.FormedInEveryRun | logicsystem.cpp:589-627 | in every run from an empty server, however many checks complete an upload: entries have valid ids, no session table is empty, a session has at most five entries, and the next request collides if and only if some check freed the id of an entry with neither the id taken nor the entry removed afterwards |
| Registry.LeakedExactly | logicsystem.cpp:589-627 | in every run from an empty server, however many checks complete an upload, an id is taken without an entry at the end if and only if at some step its entry went while it was taken, or its receiver could not be constructed, and no check freed it afterwards |
| Registry.LeakLasts | csession.cpp:76-82 | until a check frees it such an id is never given out again |
| Registry.NotFreedIsKept | file.cpp:412-417 | an upload keeps its id and entry in every run in which no check frees this id, its own as when the hash phase completes it or an earlier upload's, nor is still to remove this entry |
| Registry.AtomicRunsAgree | file.cpp:214-215 | if freeing and removing happen together no request collides, however many checks complete an upload; if besides every receiver can be constructed, no id is lost and rejection means all five ids are in use |
| Registry.CollidesOnceExactly | file.cpp:214-215 | if each upload is completed once, an entry whose id is free belongs to an upload that is leaving, and a request collides exactly on such an upload |
| Registry.LeakedOnceExactly | logicsystem.cpp:589-627 | if each upload is completed once, an id is lost if and only if some request collided on it and its entry went afterwards, or the receiver it was given to could not be constructed |
| Registry.LeakIsForever | csession.cpp:76-82 | and then it is never freed nor given out again |
| Registry.FailureLeaks | file.cpp:46-51 | a receiver that cannot open its file is enough, without any collision |
| Registry.CollisionLeaks | file.cpp:214-215 | with freeing and removing apart a collision is enough as well, each upload completed once |
| Registry.LeakGivenBack | file.cpp:214-215 | a second completion of the earlier upload gives such an id back, to the next request |
| Registry.SecondCompletionLeaks | file.cpp:214-215 | and it can lose an id without any collision or failure, by removing a later upload's entry |
| Url.UrlEncode | csession.cpp:547-571 | the loop computes the byte-wise encoding |
| Url.UrlDecode | csession.cpp:573-592 | the loop computes the decoding, or stops at an assertion |
| Url.EncodeByteExactly | csession.cpp:553-568 | letters, digits and -_.~ stand for themselves, a space becomes a plus sign, every other byte its escape with two upper-case digits |
| Url.DecodePlain | csession.cpp:578-590 | a plus sign is a space, and every other byte but the percent sign, reserved or not, stands for itself |
| Url.DecodePercent | csession.cpp:536-544 | two digits of either case give the byte they spell, letters beyond F modulo 256, and anything else or too little aborts |
| Url.DecodeEncode | csession.cpp:547-592 | decoding inverts encoding for every byte string and meets no assertion |
| Url.EncodeIsUrlSafe | csession.cpp:553-568 | encoder output is unreserved characters, plus signs and percent escapes of two upper-case hex digits |
| Url.EncodeInjective | csession.cpp:547-571 | different strings have different encodings |
| Url.ReencodesExactly | csession.cpp:547-592 | encoding what a string decodes to gives the string back if and only if it is canonical: unreserved characters, plus signs, and upper-case escapes of bytes that need one |
| Query.Session.PreParseGetParam | csession.cpp:594-635 | the loop computes path and parameters, added to those already there, or stops at a decoder assertion |
| Query.PieceExactly | csession.cpp:617-632 | a piece without an equals sign changes nothing and aborts nothing; any other is cut at its first one and sets the decoded key to the decoded value, or aborts |
| Query.PiecesInOrder | csession.cpp:615-626 | pieces take effect one after the other, also empty ones, until one aborts |
| Query.TargetExactly | csession.cpp:600-609 | the path is what precedes the first question mark, the query all that follows |
| Query.QueryRoundTrip | csession.cpp:594-635 | a path without question mark and any list of encoded pairs are parsed back to the path and the left-to-right fold of the pairs |
| Query.FoldIsLastPair | csession.cpp:621-632 | a key ends up with the value of its last pair |
| Repair.SendVerifyCode | logicsystem.cpp:788-839 | one code per non-empty block of ten packets, numbered from 0, code b over exactly packets 10 b to 10 b + 9 as far as the file goes |
| Repair.CodesConcatenate | logicsystem.cpp:788-839 | the data of the codes, in order, concatenate to the file |
| Repair.PacketInCode | logicsystem.cpp:788-839 | packet s is packet s % 10 of the code with number s / 10, the number under which its block is resent |
| Repair.CodeCountsAgreeExactly | file.cpp:291-323 | sender and receiver count the same codes exactly when the packet count is no multiple of ten; otherwise the receiver waits for one too many |
| Repair.SendDamagedHashBlock | logicsystem.cpp:912-957 | the ten packets of each listed block are resent with their bytes up to the first that lies behind the file or follows a short read, where the handler throws |
| Repair.ResendsExactly | logicsystem.cpp:912-957 | by sizes alone: the resend gets through if and only if every listed block has ten packets in the file and only the last one listed ends with a short packet |
| Repair.AscendingResendCovers | logicsystem.cpp:915-936 | for an ascending block list every existing packet of every listed block is resent before the handler ends or throws |
| Repair.Rewriter.ReWriteCausedByHash | file.cpp:375-411 | the collected packets are written at their offsets, in order, the result is compared with the declared digest, and the state of the hash phase is reset |
| Repair.RepairExactly | file.cpp:397-404 | for a saved file of any length: rewritten packets equal the source, others keep their bytes up to zeros filling a gap, and the file becomes the source if and only if it was not too long, it had the right length or the last packet was rewritten, and every differing packet was rewritten |
| Repair.BlockRepairExactly | logicsystem.cpp:912-957 | the same for what SendDamagedHashBlock sends of an ascending block list: the result is the source if and only if the saved file was not too long, it had the right length or the last block is listed, and every differing packet lies in a listed block |
| Hash.CalculateLargeFileHash | hashmd5.cpp:50-75 | the chunk loop computes the one-shot digest of the longest whole-MiB prefix |
| Hash.CalculateFileHash | hashmd5.cpp:8-24 | files below 10 MiB (10485760 bytes) are digested whole, others by their prefix of whole MiB |
| Hash.LargeDigestSeesExactly | hashmd5.cpp:50-106 | even with a collision-free hash two large files have one digest exactly when their whole-MiB prefixes are equal |
| ServicePool.ServicePool.GetService | servicepool.cpp:35-42 | call k returns context k modulo the number of contexts |
| ServicePool.IndexIsRemainder | servicepool.cpp:38-40 | the wrapping index is the call number modulo the number of contexts |
| ServicePool.EvenlyUsed | servicepool.cpp:35-42 | after m calls each context has been used m / n times, the first m % n once more |

## Left out

- Receiver.FileToReceve.constructor: requires at least one packet; for an empty file the source reads the first flag of an empty bitmap (`file.cpp:108`).
- Receiver.FileToReceve.AddPacket: a number at or above the packet count is modelled when the window refuses it; one that the window admits is not, since the source compares it with nothing and sets a flag past the bitmap (`filemanagement.cpp:46-56`).
- Receiver.FileToReceve.HandleData: the same numbers as AddPacket; the file has been found (a missing one is the crash of `Upload`).
- Receiver.FileToReceve.SlideWindow: stops at the packet count, where the source reads one flag past the bitmap (`file.cpp:260`).
- Receiver.FileToReceve.FlushToDisk: one stretch of the thread from a wakeup to the next wait, without interference; blocking, waking and the interleaving with other threads are modelled step by step in `Runs`.
- Completion.CompletionExactly: FileFinish comes once; what the timer adds is in `Upload`.
- Receiver.FileToReceve.FinalCheckResumed: ends with the answer; freeing the id and removing the entry is `Registry.FinishUpload`.
- Channel.ChannelIsFifo: bodies of at most 2048 bytes, the size of `m_Data`; lengths up to 4000 and negative ones pass the source's check and overrun the buffer, which the model calls `Overrun`.
- Connection.SendingSession.Send: lengths that fit a signed 16-bit frame; the source's `short` length wraps beyond that.
- Registry.HandleUploadRequest: the entry is a value; the source builds the receiver object, and with it truncates the saved file, before it notices a collision. A negative packet count, which makes the constructor throw past the handler, is not modelled.
- Registry.LeakedExactly: which upload a check belongs to is not recorded, so the runs include some in which an id is freed when the source would not; when an upload is completed once is `Aftermath.LateMessagesExactly`.
- Repair.SendVerifyCode: carries the bytes a code is meant for; the source clears the buffer's size first and hashes an emptied vector (`logicsystem.cpp:815`, `file.cpp:319`).
- Repair.Rewriter.ReWriteCausedByHash: one pass over packets held by value; the source keeps references (`file.h:16-20`) and starts one thread per packet.
- Verdict.UploadCompletesExactly: the limit of the send queue and message sizes are not part of the system (up to 1024 packets `Requests.RequestsAreSmall` bounds the requests; longer files can have longer ones); freeing the id and removing the entry are one step with FileComplete. A spurious wakeup, or an expiry of the timer, may happen at any time but is not counted on: a state in which nothing else can happen is at rest.
- Aftermath.LateMessagesExactly: a late data message for an id that has been given to a later upload reaches that upload; the system holds one upload only.
- Truncation.OverwrittenPassesExactly: this one way of overwriting; which files of an escaping size pass when still earlier packets are overwritten as well is not stated.
- Truncation.EscapesExactly: about FinalCheck's FileComplete; the one ReWriteCausedByHash sends after rewriting is not covered, and depends on the list of damaged blocks.
- JSON and base64: messages are values; the digest is a parameter.
- Detection of damaged blocks and the threading of the hash phase: the list of damaged blocks is an input.
- Connection errors, session clean-up and HTTP handling by Beast.
- `Client`'s file vector and upload queue: removal shifts later ids (`client.cpp:190`).
- Databases, Redis, gRPC, the user interface and start-up code.
