# Verified model of ps2client's links, shells and text functions

The repository holds two command-line programs that talk to a PlayStation 2: `npsh`, over a NapLink USB
cable, and `pksh`, over TCP and UDP. This project models their stateful parts and proves what holds in
every run.

| file | models |
|---|---|
| `Bytes`, `Lists`, `Wire` | C integer conversions, byte orders, list.h, and the NapLink packet header |
| `Handshake` | `send_packet` / `recv_packet` as interleaved steps of two parties over TX_RDY, TX_REQ, TX_C and a byte pipe |
| `Naplink` | the RPC engine: dispatch, nested receive loops, the pending-command slot, the path search |
| `RpcTrace` | the grammar of NapLink sessions, as exchanges and as an automaton, for every peer and command sequence |
| `RemoteCalls` | file calls of the target end to end: request bytes in, system call, reply bytes out |
| `Npsh`, `NpshProperties`, `NpshQuit` | the main loop of npsh with its idle timeout, what every run of it keeps, and how it ends |
| `NetFs` | `pko_recv_bytes`, `ps2netfs_accept_pkt` and the framing of replies on the byte stream |
| `FileServer`, `NetFsClient` | a server that reads the request bytes, may serve them in part and may go away, and the request functions over shared packet buffers |
| `Copy`, `PartialUpload`, `PartialDownload` | both loops of `cli_copy`, end to end through the stream, against servers that serve everything and servers that do not |
| `LogBuffer` | reassembly of log datagrams (`pko_log_read`, `cli_log`) |
| `ClientTable` | the table of connections in pksh's `main` |
| `Completion`, `SearchPath` | the in-place completion filter, `path_split`, suffix configuration, the search path end to end |
| `Commands` | the command table: completion with a static index, look-up, cutting a line |
| `Strings`, `Paths`, `Tokens`, `Config` | C strings in buffers, `host:` prefixes, the two tokenisers, configuration lines |

Code that changes things step by step is modelled by classes, arrays and loops. Each such method is proved
against a specification function (`Process`, `Pass`, `Accept`, `Step`, `Filtered`, `FixTokens`, ...), and
what the program promises is proved about that function.

## Where the code departs from its intent

The model follows the code. Where a promise fails, a lemma says exactly when it holds:

- `maxi--` on any release (pksh.c:184): connections stay within reach of the scan if and only if every
  release frees the topmost slot (`ReachableIffReleasesTop`); the four services stay scanned in any case.
- The accept loop tests the wrong variable and runs off the table once six connections are open:
  `AcceptFindsRoomIff`.
- `accept_pkt` reports success for streams that end inside a header, break inside a body, or give a length
  too short for a retval: `AcceptSucceedsIff` and `SuccessIsFrameIff` say exactly when, `StaleReply` what is
  then returned.
- A reply whose length is just its header is answered with 0 although its type is right (`AcceptIff`).
- Write results are added up unchecked in the upload, and a reply that never comes counts as the previous one.
  When the loop ends, the server has the file for certain if and only if the size is below 2^31 and the reply to
  every write has arrived in full (`ExitProvesCopyIff`); `HalfAFile` is a run on a closed connection that ends
  with half of it. While the replies do arrive the loop ends exactly when everything is stored
  (`UploadStopsIffComplete`), and after a short write it does not end (`ShortWriteNeverStops`).
- Read results are ignored in the download: a server that reads on from where it is gives the file back, for all
  contents, if and only if it serves every read in full (`AlwaysFetchedIff`, `ShortDownload`). Nothing is
  truncated on either side (`CopiesDoNotTruncate`).
- `trim` places its terminator from the advanced pointer (common.c:94): `TrimmedOnTheRightIff`; it may even
  write past the buffer: `TrimFits`, `TrimOverruns`.
- `arg_prepend_host` drops text in front of an inner `host:`: `PrefixKeepsDevicesIff`.
- `split_filename` leaves a file name of MAXPATHLEN characters or more without a terminator, drops a device that
  is too long, and overruns the device buffer for two positions of the colon: it is lossless if and only if both
  parts are shorter than the buffers (`SplitLosesNothingIff`, `NameWithoutTerminator`, `DeviceFitsIff`).
- `build_argv` counts one argument too many when its loop runs off the end: `ArgvCount`, `TokenisersAgree`.
- A full console buffer without a newline loses its last byte: `UnchangedIffLinesEnd`. A datagram longer than the
  free space loses its tail: `AllReceivedIff`. A failed receive moves the log
  index back: `LogReadFailed`.
- An unknown command, or an exec command without a buffer, leaves a WAZZUP unanswered: `WazzupAnsweredIff`.
  A WAZZUP inside a benchmark sends the stored BENCHMARK again, and this is the only way a command goes out
  twice (`CommandsSentOnceIff`) or the idle counter exceeds its bound (`CounterPeak`, `NestedPollsAddUp`).
- main closes the link after the loop whether it is open or not. It is open if and only if the last
  reinitialisation, if any, found the device and the last timeout check did not close it (`FinalCloseIff`). Over
  all runs the second close is ruled out if and only if the timeout never fires (it is 0, or the largest unsigned
  int), or the quit is typed, the device was found and the timeout is at least ten (`QuitClosesOnceIff`).
- `initialize_naplink` may fail after a timeout and the closed handle is then used:
  `PolledOpenIffReinitsSucceed`.

## Model

| member | source | states |
|---|---|---|
| Wire.HeaderRoundTrip | packet.h:35-83 | size and type read back from the 8 header bytes are those put in |
| Handshake.StepKeepsInv | packet.c:43-123 | every step of either party and every change of TX_RDY keeps the invariant that ties flags, pipe and both program counters to one packet in transit |
| Handshake.RequestNeedsReady | packet.c:92-96 | in every run, the move that sets TX_REQ is a step of a send_packet since whose call TX_RDY has been set |
| Handshake.NoTransferWithoutReady | packet.c:43-123 | in every run in which TX_RDY is never set, TX_REQ and TX_C stay clear, no byte is written and nothing is received |
| Handshake.InOrderDelivery | packet.c:43-123 | in every interleaving, with roles that may alternate, the packets received are a prefix of those sent, at most two behind |
| Handshake.FlagsNeverCollide | packet.c:50-78 | no TX_REQ or TX_C is set while an earlier one stands, and each is cleared only while set |
| Handshake.PipeHoldsOnePacket | packet.c:60-67 | whatever is on a pipe is a contiguous piece of the one packet in transit |
| Handshake.PolledRequestIsIncoming | naplink.c:420-425 | a party between two calls sees TX_REQ only if the other waits to send to it |
| Handshake.NeverStuck | packet.c:43-123 | once both have made their calls and TX_RDY is granted, one of them can move |
| Handshake.DeliveredWithinBound | packet.c:43-123 | every schedule delivers a packet under way within 42 steps of the two programs plus two per byte of its body |
| Naplink.FirstSuccessUnique | naplink.c:262-273 | the result of a search along a list of names is determined: the first success, or -1 |
| Naplink.Link.DoReturn | naplink.c:169-187 | sends one RETURN with the value and the bytes; a negative count sends none |
| Naplink.Link.GetReturn | naplink.c:70-94 | consumes exactly one packet; -1 unless it is a RETURN, else its value |
| Naplink.Link.DoCommand | naplink.c:97-166 | one command packet out, one packet in, in that order |
| Naplink.Link.DoExec | naplink.c:135-166 | without a buffer nothing is sent and -1 returned; with one, the name and its NUL go out |
| Naplink.Link.SearchPaths | naplink.c:262-273 | the loop over the directories returns the first that opens, or -1, and leaves the list alone |
| Naplink.Link.Open | naplink.c:238-276 | bare name before the directories, translated flags, the terminal as descriptor 1 |
| Naplink.Link.ServeFile | naplink.c:238-328 | each of the five file requests sends exactly one RETURN with the result, resets the counter and sets the processing flag as coded |
| Naplink.Link.Read | naplink.c:290-304 | a read sends the bytes read, a failed one -1 and none, a benchmark the buffer unread |
| Naplink.Link.DoBenchmark | naplink.c:190-220 | dispatches packets until one is a RETURN, with the benchmarking flag set throughout |
| Naplink.Link.Wazzup | naplink.c:329-365 | counts the poll unless processing, answers it from the slot, then clears the slot |
| Naplink.Link.Answer | naplink.c:337-362 | the packet that goes out for each pending command, and the reply awaited |
| Naplink.Link.RecvAndProcessPacket | naplink.c:223-379 | the imperative engine, with its nested loops, does what the recursive specification of one dispatch says |
| RpcTrace.GrammarIsAutomaton | naplink.c:223-379 | a trace is a sequence of whole exchanges if and only if the automaton over single packets accepts it |
| RpcTrace.BenchmarkTrace | naplink.c:190-220 | inside a benchmark, with a peer in turn, the host only answers file requests until the peer's RETURN |
| RpcTrace.DispatchTrace | naplink.c:223-379 | one dispatch is one whole exchange, or blocks half way, or the peer is at fault, never the host; in turn, no WAZZUP arrives inside a benchmark |
| RpcTrace.DispatchAnswers | naplink.c:223-379 | for every peer, a dispatch sends nothing but answers to the packet just received |
| RpcTrace.DispatchCommands | naplink.c:337-365 | for every peer: the answer to the opening WAZZUP is the stored packet, body and all, and the slot is then empty; a further command goes out if and only if a WAZZUP arrives inside a benchmark; without one the counter rises by at most one |
| RpcTrace.DispatchCounter | naplink.c:239-336 | for every peer, benchmarks included, the idle counter is at most the number of WAZZUPs answered since the last file request was answered |
| RpcTrace.DispatchMeter | naplink.c:239-336 | for every peer, nested benchmarks included, counter and processing flag after a dispatch are exactly what the packets moved make of them |
| RpcTrace.CounterIsMetered | naplink.c:239-336 | and so they are after every sequence of commands and polls |
| RpcTrace.IdleAnswer | naplink.c:338-341 | with an empty slot a WAZZUP is answered by a RETURN of 0 without data |
| RpcTrace.CommandGoesOut | naplink.c:337-362 | a command just set is the answer to the next WAZZUP, an exec command with its file name and a NUL |
| RpcTrace.SessionGrammar | naplink.c:223-379 | for every sequence of commands and polls, with a peer in turn, the trace is a sequence of whole exchanges, so each request has one reply, and each command set is sent at most once |
| RpcTrace.HostOnlyAnswers | naplink.c:223-379 | for every peer, before and after its faults, the host sends nothing but answers, and answers each request that opens a dispatch at once |
| RpcTrace.CommandsSentOnceIff | naplink.c:110-220 | for every peer: each command packet is the latest command set, with its file name, and none is sent twice, if and only if no WAZZUP arrives while the loop of a benchmark runs |
| RpcTrace.RepeatingRun | naplink.c:209-365 | the shortest run that breaks this: one benchmark command and two WAZZUPs |
| RpcTrace.WazzupInsideBenchmarkRepeats | naplink.c:329-365 | a WAZZUP right inside a benchmark sends the stored BENCHMARK a second time |
| RpcTrace.WazzupAnsweredIff | naplink.c:337-365 | a WAZZUP is answered if and only if the slot is empty or holds a known command with what it needs |
| RpcTrace.ReturnRoundTrip | naplink.c:70-187 | decoding what do_return builds gives back the value, as far as an int holds it, and exactly the bytes |
| RpcTrace.FailedReadReply | naplink.c:290-304 | a failed READ is answered by a four-byte body that decodes to -1 |
| RemoteCalls.OpenCall | naplink.c:238-276 | for every set of flags, and whatever bits the host does not look at: a request with the target's bits for that set and a NUL-terminated name yields the first success of the path search, opening with exactly that set |
| RemoteCalls.EveryWord | naplink.c:249-258 | every flag word is such a sum |
| RemoteCalls.TerminalCall | naplink.c:246-247 | opening /dev/tty gives 1, whatever the flags and the host |
| RemoteCalls.CloseCall | naplink.c:277-289 | the reply is the host's close, and 0 without a close for descriptors up to 2 |
| RemoteCalls.ReadCall | naplink.c:290-304 | the bytes the host read reach the target unchanged with their number; a failure decodes to -1 and no bytes |
| RemoteCalls.WriteCall | naplink.c:305-317 | exactly the bytes of the request are written on the host, and its result is the reply |
| RemoteCalls.LseekCall | naplink.c:318-328 | descriptor, offset and origin arrive in that order, negative ones included |
| RemoteCalls.BenchmarkMovesNothing | naplink.c:290-317 | during a benchmark reads and writes report the full count, and the reply does not depend on any system call |
| RemoteCalls.BenchmarkIsDry | naplink.c:190-220 | a whole benchmark without a further WAZZUP moves the same packets whatever the host's reads and writes would do, and the flag is clear afterwards |
| Npsh.Program.NaplinkProcess | naplink.c:420-425 | one poll dispatches one packet if TX_REQ is set, and nothing otherwise |
| Npsh.Program.ReadChar | npsh.c:129-161 | a command line resets the counter, a bound key does not; quitting ends the loop |
| Npsh.Program.HandleInput | npsh.c:76-98 | input after a timeout first reinitialises and polls the link, then is read |
| Npsh.Program.Iterate | npsh.c:64-108 | one pass of the loop equals the specification of a pass, poll by poll |
| Npsh.Program.MainLoop | npsh.c:43-108 | the whole loop equals the specification of a run |
| NpshProperties.PassPolls | npsh.c:64-98 | a pass with the link up checks and polls the device twelve times and dispatches each packet announced; with the link down it does so only if there is input |
| NpshProperties.StartupPolls | npsh.c:60-62 | main polls once before the loop |
| NpshProperties.CloseAndReinitAlternate | npsh.c:69-107 | timeout closes and reinitialisations strictly alternate, the link is not touched in between, and the counter is 0 while it is down |
| NpshProperties.PolledOpenIffReinitsSucceed | npsh.c:83-91 | the device is polled only while open if and only if every reinitialisation succeeded |
| NpshProperties.ClosedHandlePolled | npsh.c:69-107 | a run that times out and finds no device, and polls the closed handle |
| NpshProperties.IdleTimeout | npsh.c:99-107 | for every peer the counter is at most timeout at every loop head, and a close needs more than timeout WAZZUPs answered since the last file request, command line, close or reinitialisation |
| NpshProperties.CounterPeak | npsh.c:69-98 | for every peer, within a pass, the counter never exceeds timeout + 11 at any single poll, unless in that pass a WAZZUP arrives inside a benchmark |
| NpshProperties.NestingNeedsBenchmarkAndFault | npsh.c:69-98 | that takes a BENCHMARK command and a peer out of turn |
| NpshProperties.NestedPollsAddUp | naplink.c:209-336 | k WAZZUPs nested in one dispatch raise the counter by k, so there is then no bound |
| NpshQuit.PollsCount | npsh.c:69-98 | n idle polls answered in a pass raise the counter by n, whatever processing flag the pass started with, and from 0 after a reinitialisation; a key alone resets nothing |
| NpshQuit.GivenCommandGoesOut | npsh.c:76-98 | a command given by a line or a bound key is what the first WAZZUP of the polls behind it is answered with |
| NpshQuit.GoesOnIffNoQuit | npsh.c:64-108 | in every run that is not blocked the loop is still going if and only if no quit has been given, by a line or by a bound key |
| NpshQuit.QuitEndsLoop | npsh.c:64-112 | the pass in which a quit is given is the last: whatever would follow, the run ends in the state after it, which main then closes the link in |
| NpshQuit.FinalCloseIff | npsh.c:64-112 | for every run and every quit, typed or by a bound key: the handle is open at the final close if and only if the last reinitialisation, if any, found the device and the last timeout check did not expire |
| NpshQuit.QuitClosesOnceIff | npsh.c:64-112 | over all runs, for typed and for bound quits, with or without the device at hand: the final close always finds an open handle if and only if the timeout can never fire, or the quit is typed, the device is there and the timeout is at least ten |
| NpshQuit.LateCloseAfterQuit | npsh.c:92-110 | for every timeout that can fire, a run whose polls after a quit by a bound key close the link, and for timeouts below ten also one with a typed quit |
| NpshQuit.LostDeviceClosesTwice | npsh.c:76-110 | for every timeout that can fire, a run that times out and reinitialises without finding the device, and closes the closed handle again |
| NetFs.AcceptIff | netfsproto_core.c:27-76 | for a frame that arrives in full, 1 is returned and exactly the frame consumed if and only if it has the expected type and is longer than its header and no longer than the reply expected |
| NetFs.AcceptEndIff | netfsproto_core.c:33-38 | -1 is returned exactly for an orderly end inside a header |
| NetFs.AcceptSucceedsIff | netfsproto_core.c:27-76 | for every stream, exactly when accept_pkt reports something other than 0, which callers take for success |
| NetFs.SuccessIsFrameIff | netfsproto_core.c:93-101 | a reported success means a frame received in full if and only if its header has arrived and the length in it covers the retval and has arrived too |
| NetFs.StaleReply | netfsproto_core.c:93-101 | what is returned otherwise: the retval as far as it has arrived and the previous reply's beyond that, so a closed connection repeats the previous result |
| NetFs.CutBodyPasses | netfsproto_core.c:60-69 | a reply cut off behind its header by a connection error passes for success with the previous result |
| NetFs.FrameAccepted | netfsproto_core.c:93-101 | a well-formed reply yields its retval and leaves what follows it on the stream |
| NetFs.StreamStaysAligned | netfsproto_core.c:80-425 | for any sequence of well-formed exchanges, of every kind of request that is itself well-formed, each request gets its own reply and data, and the stream stays on a frame boundary |
| FileServer.ServeOpen | netfsproto_core.c:80-101 | the bytes of an open request carry mode and name, cut to the path field |
| FileServer.ServeClose | netfsproto_core.c:105-125 | the bytes of a close request carry the descriptor |
| FileServer.ServeLseek | netfsproto_core.c:195-217 | the bytes of a seek request carry descriptor, offset and origin, negative ones included |
| FileServer.ServeRead | netfsproto_core.c:129-154 | the bytes of a read request carry descriptor and count |
| FileServer.ServeWrite | netfsproto_core.c:158-191 | a write request is served once its data has followed it, with exactly that data |
| NetFsClient.Client.RecvBytes | netfsproto_core.c:33-66 | any split of the stream into partial receives stores the same bytes |
| NetFsClient.Client.AcceptPkt | netfsproto_core.c:27-76 | the imperative accept_pkt, with its unsigned length, equals the specification |
| NetFsClient.Client.ReqOpen | netfsproto_core.c:80-101 | result, buffers and stream against any peer; on a synchronised connection to a file server, the effect and result of opening |
| NetFsClient.Client.ReqClose | netfsproto_core.c:105-125 | result, buffers and stream against any peer; on a synchronised connection, the effect and result of closing |
| NetFsClient.Client.ReqLseek | netfsproto_core.c:195-217 | result, buffers and stream against any peer; on a synchronised connection, the effect and result of seeking |
| NetFsClient.Client.ReqRead | netfsproto_core.c:129-154 | against any peer, a positive retval makes exactly that many data bytes leave the stream for the start of the caller's buffer; on a synchronised connection they are the bytes of the file at the position |
| NetFsClient.Client.ReqWrite | netfsproto_core.c:158-191 | header and data are sent one after the other and one reply is taken; on a synchronised connection the file holds the data at the position |
| NetFsClient.Client.Call | netfsproto_core.c:80-425 | one request function equals the exchange the stream theorem speaks of |
| NetFsClient.Client.Calls | netfsproto_core.c:80-425 | a sequence of calls, each answered when it has been sent, gets its own replies and leaves nothing on the stream |
| NetFsClient.ServerAnswers | netfsproto_core.c:80-217 | the replies of a file server to open, close, read, write and seek are those the stream theorem expects |
| Copy.Download | pksh.c:937-974 | a download ends with the remote bytes written over the local file, through the byte stream; the file is opened for reading and none is created |
| Copy.DownloadLoop | pksh.c:956-969 | the chunk loop on the remaining size |
| Copy.DownloadPass | pksh.c:962-968 | one pass against any peer: what the reply brought is laid over the old buffer, and a chunk of the buffer is written |
| Copy.RemoteSize | pksh.c:954-955 | two seeks give the size and leave the position at 0; -1 beyond an int |
| Copy.Upload | pksh.c:975-1010 | an upload ends with the local bytes written over the remote file, which is opened for writing and created if missing, and the rest of the disk as it was |
| Copy.UploadLoop | pksh.c:994-1006 | the chunk loop on total < size |
| Copy.UploadPass | pksh.c:998-1005 | one pass against any peer: a chunk is read and sent, whatever the write reports is added up, and what is left of the connection |
| Copy.UploadPasses | pksh.c:994-1006 | the loop against any peer goes through the states that the passes give one by one, connection and buffer included, and stops only by the exit test of the code, a closed connection or the limit |
| Copy.MovedAllIff | pksh.c:990-1006 | all of a file is moved if and only if its size fits an int |
| Copy.UploadThenDownload | pksh.c:923-1015 | two copies over one connection, through the framed stream: both succeed, and the fresh file equals the original if and only if the target was not longer before, for every length an int holds |
| Copy.CopiesDoNotTruncate | pksh.c:945-1006 | in general the target keeps what it had beyond the length of the source, in both directions |
| PartialUpload.ProgramSimulates | pksh.c:998-1005 | against a server that stores parts of writes, refuses them or goes away, a pass of the program, byte stream and disk included, is a pass of the recurrence |
| PartialUpload.ProgramRuns | pksh.c:994-1006 | and so is the whole loop: the remote file is the old one with what the server has stored written over it |
| PartialUpload.AnsweredIsFrame | netfsproto_core.c:27-76 | a reply counts as received in full if and only if accept_pkt has taken a whole frame |
| PartialUpload.AcceptingBelieves | netfsproto_core.c:158-191 | a reply received in full is taken at its word |
| PartialUpload.UploadStopsIffComplete | pksh.c:990-1006 | for a size that fits an int, while every reply arrives in full, the exit test holds if and only if the server has stored the whole file |
| PartialUpload.ShortWriteNeverStops | pksh.c:994-1006 | once the total has fallen behind, and while every reply arrives in full, the exit test never holds |
| PartialUpload.ExitProvesCopyIff | pksh.c:990-1006 | of a loop that has ended: every server that has sent the same bytes holds the whole file, if and only if the size fits an int and every reply was received in full |
| PartialUpload.HalfAFile | netfsproto_core.c:33-38 | two chunks and a server gone after the first reply: the loop ends with half of the file stored |
| PartialDownload.DownloadPasses | pksh.c:956-969 | the loop against any peer writes one piece of the buffer for each reply; against a server that reads on from where it is, those pieces are determined by how much it serves of each read |
| PartialDownload.AlwaysFetchedIff | pksh.c:956-969 | from such a server the download gives the file back, whatever the file and the buffer held, if and only if every read is served in full |
| PartialDownload.ShortReply | pksh.c:963-967 | after a single short reply the chunk is right if and only if the stale bytes are the missing ones |
| PartialDownload.ShortDownload | pksh.c:956-969 | a file of two bytes of which one arrives: the loop ends with a wrong second byte |
| LogBuffer.LogReader.LogRead | pksh.c:223-268 | one datagram: pending text and output follow the specification, and the buffer stays clean beyond what is pending |
| LogBuffer.LogReader.Flush | pksh.c:252-265 | what is written, and what stays pending, once the text is in the buffer |
| LogBuffer.LogReader.LogReadFailed | pksh.c:244-250 | after a failed receive the state is sound if and only if the log goes to a file or one byte was pending |
| LogBuffer.LogReader.SetLog | pksh.c:846-868 | switching the destination keeps what is pending |
| LogBuffer.RunAccounts | pksh.c:223-268 | every run cuts its input into one piece per flush and the pending rest; console lines are at most 1023 bytes, end in a newline and differ from their piece in the last byte at most |
| LogBuffer.NothingLost | pksh.c:223-268 | bytes written plus bytes pending equals bytes that recvfrom stored, and no newline stays pending |
| LogBuffer.AllReceivedIff | pksh.c:236-241 | what is received is all that was sent if and only if each datagram fits behind what is pending when it comes |
| LogBuffer.LongDatagram | pksh.c:236-268 | of one that does not fit, as much is received as makes the text 1023 bytes long, and that is written at once |
| LogBuffer.UnchangedIffLinesEnd | pksh.c:255-264 | the text is passed on unchanged if and only if every console piece ended in a newline |
| LogBuffer.FullBufferLosesByte | pksh.c:255-264 | a datagram that fills the buffer without a newline is not |
| ClientTable.TableInvariant | pksh.c:91-186 | after every sequence of accepts and releases the live entries are distinct and equal the descriptor set, maxfd bounds them, and the services are in place below maxi |
| ClientTable.AcceptFindsRoomIff | pksh.c:160-168 | after every run a further connection finds a free slot if and only if fewer than six are open |
| ClientTable.ReachableIffReleasesTop | pksh.c:147-186 | no connection ever lies beyond maxi if and only if each release frees slot maxi |
| ClientTable.HiddenConnection | pksh.c:147-186 | two connections come and the first goes: the second is beyond maxi |
| ClientTable.Server.constructor | pksh.c:91-130 | main's set-up establishes the invariant |
| ClientTable.Server.AcceptClient | pksh.c:160-178 | a new connection takes the first free slot and updates set, maxfd and maxi |
| ClientTable.Server.ReleaseClient | pksh.c:180-185 | a connection that ended leaves slot and set, and maxi drops by one |
| ClientTable.Server.ServeSlot | pksh.c:148-185 | a slot is served exactly if it is live and ready; the table then takes the new connection if and only if it is the command server's, gives up the slot if and only if it is a connection that has ended, and stays as it is otherwise |
| ClientTable.Server.Scan | pksh.c:147-186 | one scan is a legal run of the table; it serves every ready service and every ready connection up to the final maxi, and nothing else; it accepts exactly one connection if the command server is ready, and releases exactly those connections served that have ended |
| Completion.PathSplit | rl_common.c:132-148 | the list is the reverse of the non-empty colon-separated fields |
| Completion.NextToken | rl_common.c:138-140 | strtok_r takes exactly the next non-empty field |
| Completion.Filter.AcceptSuffix | rl_common.c:113-129 | 0 if and only if there are no suffixes or one occurs in the name |
| Completion.Filter.CountNames | rl_common.c:68-70 | the number of entries before the null |
| Completion.Filter.Collect | rl_common.c:73-83 | the survivors stand in order behind the prefix, inside n + 2 slots, and every candidate is kept or freed once |
| Completion.Filter.Install | rl_common.c:85-103 | the three endings for no, one and several survivors |
| Completion.Filter.FilenameCompletionIgnore | rl_common.c:54-105 | the array ends up filtered, in order, and every string that was in it is afterwards there once or freed once |
| Completion.KeptAreNames | rl_common.c:72-79 | a name survives if and only if it was there and is acceptable |
| Completion.KeptInOrder | rl_common.c:72-79 | the survivors of two lists one behind the other are those of the first, then those of the second |
| Completion.KeptAll | rl_common.c:72-79 | a list of acceptable names is kept as it is |
| Completion.SoleCandidateStays | rl_common.c:61-91 | a sole candidate stays, acceptable or not; otherwise nothing is left if and only if no candidate is acceptable |
| Completion.FilterIdempotent | rl_common.c:54-105 | with at least one survivor a second run changes nothing |
| Completion.AcceptedBySome | rl_common.c:113-129 | acceptance does not depend on the order of the suffixes |
| Completion.SuffixConfiguration | pksh.c:1290-1293 | with the suffixes configured as a string, a name survives if and only if it is a directory, or the string has no non-empty field, or one occurs in the name |
| SearchPath.LaterDirectoriesWin | naplink.c:262-273 | with a configured search path the bare name wins, then a later directory over an earlier one, and -1 is returned if and only if nothing opens |
| Commands.MatchesAre | pksh.c:1206-1226 | completing a text offers exactly the commands that start with it |
| Commands.CommandTable.CommandGenerator | pksh.c:1206-1226 | each call returns the next match after the static index, and none once it has reached the end |
| Commands.CommandTable.Completions | pksh.c:1206-1226 | the calls made for one text enumerate all matches in table order |
| Commands.CommandTable.FindCommand | pksh.c:437-446 | the first command of that name, if any |
| Commands.CommandTable.CutWord | pksh.c:409-418 | the command word is ended in place and what follows is untouched |
| Commands.CommandTable.ExecuteLine | pksh.c:401-434 | the first word is looked up; an unknown one sends the untouched line to the system |
| Commands.CompletionsRun | pksh.c:401-446 | a line made of an offered completion, blanks and an argument runs the first command of that name with that argument |
| Commands.OthersGoToSystem | pksh.c:421-426 | a line whose first word is no command goes to the system as it was typed |
| Commands.BlankGoesToSystem | pksh.c:409-426 | and so does a line of blanks |
| Paths.DeviceCheck | common.c:126-136 | 1 if and only if the argument holds a colon |
| Paths.ArgPrependHost | common.c:138-154 | the buffer holds the prefixed argument |
| Paths.PrefixIsIdempotent | common.c:126-154 | prefixing twice is prefixing once, and the result always passes the device check |
| Paths.PrefixKeepsDevicesIff | common.c:138-154 | an argument with a device is left alone if and only if it holds :/ or no host: or starts with host:; else the text before its first host: is lost |
| Paths.InnerHostMoves | common.c:141-146 | an argument that loses its first letter |
| Paths.SplitFilename | common.c:226-250 | every character of the three buffers after the split, for every argument that does not overrun them; the file name has a terminator if and only if it is shorter than MAXPATHLEN |
| Paths.DeviceFitsIff | common.c:233-239 | the device and its terminator stay inside the buffer if and only if the first colon is not at one of two positions, which the length test lets through |
| Paths.DeviceOverruns | common.c:233-239 | an argument that overruns the device buffer |
| Paths.SplitLosesNothingIff | common.c:226-250 | both buffers are written inside their bounds and hold terminated strings that put together are the argument, if and only if both parts are shorter than the buffers |
| Paths.NameWithoutTerminator | common.c:248-248 | a name of exactly MAXPATHLEN characters fills the buffer and has no terminator |
| Paths.LongNameIsCut | common.c:248-248 | a name one character longer is cut and has no terminator either |
| Paths.SplitPrefixed | common.c:138-250 | splitting the prefixed form of a plain path gives host:, and the path as a terminated string if and only if it is shorter than MAXPATHLEN |
| Tokens.FixCmdArg | common.c:156-197 | the buffer, taken apart at its NULs, holds the tokens in order, with host: in front of exactly those that name a file and hold no colon; argc is their number, argvlen their length, and nothing beyond is touched |
| Tokens.TokensJoin | common.c:165-193 | the tokens joined by single spaces are the line without its trailing spaces; there is none only for the empty line |
| Tokens.TokensAreUnique | common.c:165-193 | they are the only list of words with leading spaces that joins to it |
| Tokens.PackedTokensUnpack | common.c:171-189 | taking the packed tokens apart at the NULs gives each back, with host: in front if it names a file and holds no colon, and unchanged otherwise |
| Tokens.PackedLength | common.c:171-195 | argvlen is the length of the line without trailing spaces, plus one, plus five for each token that names a file and holds no colon; 0 for an empty line |
| Tokens.BuildArgv | common.c:263-292 | the array holds the words, up to 256 of them, and the count as coded |
| Tokens.TokenisersAgree | common.c:156-292 | both tokenisers find as many tokens, and the words of build_argv are those of fix_cmd_arg without leading spaces; the returned counts agree if and only if there are at most 257 |
| Tokens.TooManyWords | common.c:273-291 | 258 words, of which build_argv reports 257 |
| Config.ReadPair | common.c:33-45 | the key is the text before the first =, the value what follows it, and the line is cut there |
| Config.Trim | common.c:77-96 | what the buffer holds afterwards, and how far the returned pointer has moved |
| Config.TrimmedOnTheRightIff | common.c:77-96 | the buffer ends up trimmed on the right if and only if the text has no leading space or no trailing one |
| Config.TrimLeaves | common.c:77-96 | exactly: as many spaces stay at the end as there are at the start, if there are that many |
| Config.TrimmedKeepsSpace | common.c:91-94 | a concrete text whose trailing space stays |
| Config.TrimFitsWithoutLead | common.c:77-96 | without leading spaces trim stays inside its buffer |
| Config.TrimOverruns | common.c:91-94 | with them it need not: a key for every even buffer size whose terminator lands outside |
| Config.StripWhite | common.c:108-124 | the text without spaces and tabs at either edge |
| Config.ParseLine | pksh.c:1248-1254 | with three buffers of one size, a line that is no comment leaves the trimmed key and the stripped value in them, provided trim stays inside its buffer |
| Config.ConfigLineRoundTrip | pksh.c:1248-1254 | a key and a value printed with any spaces behind the key and any spaces and tabs around the value come back exactly; the value may be empty or hold =, and the line is a comment if and only if the key starts with # |

## Left out

Parts of the programs:

- USB transfers that time out or fail, the PEER_E reset, and the device search: every flag access and bulk transfer succeeds. The peer runs the same send and receive code, and both sides agree on who sends the next packet.
- Sockets, `select`, retries and `cli_reconnect`: what arrives is a parameter, and sending succeeds.
- The pko services on the client connections (`linkproto_core.c` apart from `pko_recv_bytes`).
- Directory, mount, device and format requests of ps2netfs: dopen, dclose, dread, mkdir, rmdir, devlist and mount appear in the stream theorem by the reply they wait for; umount, sync, delete and format build malformed requests, and no well-formed exchange exists for them.
- Prompts, key bindings, help and status output, `system` commands, FTP wrappers, batch tools, memory and register dumps: output and argument plumbing only.
- `cli_execee` and `cli_execeiop` of npsh.c: they swap the arguments of `fix_cmd_arg`, so their buffer is not meaningful.
- Allocation sizes: `path_split` and `build_argv` allocate one byte too few, and lists have the size of a pointer; strings are values there.

Members whose contract is narrower than the code:

- Handshake.DeliveredWithinBound: bulk reads and writes of the wrong length, which the 10-second limits of libusb would allow, do not occur.
- Naplink.Link.RecvAndProcessPacket: a request body shorter than its struct reads on as zero bytes; the operating system answers every attempt within one dispatch by a fixed function; the path buffer has no length limit.
- Npsh.Program.MainLoop: a run ends where recv_packet blocks, the flags initialize_naplink resets are not part of the state, and the final naplink_close is the subject of NpshQuit.
- NetFsClient.Client.ReqOpen: and the other requests need an open connection; with the descriptor closed by a mismatched reply, pko_recv_bytes would retry for ever.
- NetFsClient.Client.ReqRead: a reply that carries more data than the caller's buffer holds is cut off here, where the code would write past the buffer.
- Copy.Download: argv is read after free_argv in the code; the model takes the text as unchanged. The failure to open the local file is not modelled.
- PartialUpload.ExitProvesCopyIff: a connection that ends inside the four result bytes of a reply is not covered; sending on a connection the server has closed succeeds.
- PartialDownload.AlwaysFetchedIff: the replies of the server arrive in full; a reply that does not, which brings no data, counts there as a read of which nothing is served.
- Copy.UploadPasses: the loop is cut off after a number of passes, since after a refused write it would go on for ever. In Copy.UploadLoop total is unbounded here; in the code it could overflow for sizes within 64K of 2^31.
- LogBuffer.LogReader.LogRead: datagrams hold no NUL byte; the text is passed on as data, not as a format string.
- ClientTable.TableInvariant: accepts need a free slot and a new descriptor, because the accept loop would run off the table otherwise (AcceptFindsRoomIff); pko_srv_fd keeps its number; pksh_srv_fd, opened last, is the largest of the four.
- Completion.PathSplit: the NULs strtok_r writes into the line are not modelled.
- Commands.CommandTable.ExecuteLine: the commands themselves, and the shell the system call runs, are not modelled.
- Paths.SplitFilename: the buffers are MAXPATHLEN long, as the code clears that much of each; the second call in cli_copy passes buffers of 256 bytes (pksh.c:47-49). A device that overruns its buffer is excluded.
- Config.Trim: a text for which trim would write past its buffer is excluded; TrimFits is the exact guard.
- Tokens.FixCmdArg: each token has to fit the local buffer of MAXPATHLEN and all of them argv, as the code needs.
- Config.ParseLine: the settings a pair is then applied to are not modelled.
